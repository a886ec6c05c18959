/**
 * packages/core/src/zip.ts: the archive an export is written as (PKWARE APPNOTE
 * sections 4.3.7, 4.3.12 and 4.3.16), byte for byte, and the reader of it.
 */
module Zip {
  import opened Prelude
  import opened Crc32

  // ----- little-endian numbers -----

  function ByteOf(n: nat): byte { (n % 256) as byte }

  function ValueOf(b: byte): (n: nat) ensures n < 256 { b as nat }

  lemma {:induction false} ByteHasValue(n: nat)
    requires n < 256
    ensures ValueOf(ByteOf(n)) == n
  {
  }

  function Read16(b: Bytes, at: nat): nat
    requires at + 2 <= |b|
  {
    ValueOf(b[at]) + 256 * ValueOf(b[at + 1])
  }

  function Read32(b: Bytes, at: nat): nat
    requires at + 4 <= |b|
  {
    Read16(b, at) + 65536 * Read16(b, at + 2)
  }

  /** The number v stands at this offset. */
  ghost predicate Has16(b: Bytes, at: nat, v: nat) {
    at + 2 <= |b| && b[at] == ByteOf(v) && b[at + 1] == ByteOf(v / 256)
  }

  ghost predicate Has32(b: Bytes, at: nat, v: nat) { Has16(b, at, v) && Has16(b, at + 2, v / 65536) }

  lemma {:induction false} ReadsWhatIsThere16(b: Bytes, at: nat, v: nat)
    requires Has16(b, at, v)
    ensures Read16(b, at) == v % 65536
  {
    hide ByteOf, ValueOf;
    ByteValue(v);
    ByteValue(v / 256);
  }

  lemma {:induction false} ByteValue(n: nat)
    ensures ValueOf(ByteOf(n)) == n % 256
  {
    ByteHasValue(n % 256);
  }

  lemma {:induction false} ReadsWhatIsThere32(b: Bytes, at: nat, v: nat)
    requires Has32(b, at, v) && v < 0x1_0000_0000
    ensures Read32(b, at) == v
  {
    hide Has16, Read16;
    ReadsWhatIsThere16(b, at, v);
    ReadsWhatIsThere16(b, at + 2, v / 65536);
    TwoHalves(v);
  }

  lemma {:induction false} TwoHalves(v: nat)
    requires v < 0x1_0000_0000
    ensures v % 65536 + 65536 * ((v / 65536) % 65536) == v
  {
  }

  method Write16(a: array<byte>, v: nat, at: nat)
    requires at + 2 <= a.Length
    modifies a
    ensures Has16(a[..], at, v)
    ensures forall i :: 0 <= i < a.Length && !(at <= i < at + 2) ==> a[i] == old(a[i])
  {
    a[at], a[at + 1] := ByteOf(v), ByteOf(v / 256);
  }

  method Write32(a: array<byte>, v: nat, at: nat)
    requires at + 4 <= a.Length
    modifies a
    ensures Has32(a[..], at, v)
    ensures forall i :: 0 <= i < a.Length && !(at <= i < at + 4) ==> a[i] == old(a[i])
  {
    a[at], a[at + 1], a[at + 2], a[at + 3] := ByteOf(v), ByteOf(v / 256), ByteOf(v / 65536), ByteOf(v / 65536 / 256);
  }

  // ----- what is packed -----

  datatype ZipEntry = ZipEntry(name: string, data: Bytes)

  /** Compression and UTF-8 are the platform's: INFLATE takes the most it may give. */
  const DEFLATE: Bytes -> Bytes
  const INFLATE: (Bytes, nat) -> Option<Bytes>
  const UTF8: string -> Bytes
  const FROM_UTF8: Bytes -> string

  function Deflate(d: Bytes): Bytes { DEFLATE(d) }
  function Inflate(d: Bytes, most: nat): Option<Bytes> { INFLATE(d, most) }
  function Utf8(s: string): Bytes { UTF8(s) }
  function FromUtf8(b: Bytes): string { FROM_UTF8(b) }

  const LOCAL_HEADER: nat := 0x04034b50
  const CENTRAL_HEADER: nat := 0x02014b50
  const END_OF_CENTRAL_DIRECTORY: nat := 0x06054b50
  const VERSION_NEEDED: nat := 20
  const METHOD_STORED: nat := 0
  const METHOD_DEFLATED: nat := 8
  const MAX_SIZE: nat := 0xffffffff

  function Checksum(d: Bytes): (n: nat) { BitSerialCrc(d) as nat }

  lemma {:induction false} ChecksumFits(d: Bytes)
    ensures Checksum(d) < 0x1_0000_0000
  {
  }

  /** What an entry becomes: compressed only when that is shorter. */
  datatype Packed = Packed(name: Bytes, kind: nat, crc: nat, compressed: Bytes, rawLength: nat)

  function Pack(e: ZipEntry): Packed {
    var deflated := Deflate(e.data);
    var helps := |deflated| < |e.data|;
    Packed(Utf8(e.name), if helps then METHOD_DEFLATED else METHOD_STORED, Checksum(e.data),
           if helps then deflated else e.data, |e.data|)
  }

  function LocalLength(p: Packed): nat { 30 + |p.name| + |p.compressed| }

  function CentralLength(p: Packed): nat { 46 + |p.name| }

  function LocalsLength(es: seq<ZipEntry>): nat {
    if es == [] then 0 else LocalsLength(es[..|es| - 1]) + LocalLength(Pack(es[|es| - 1]))
  }

  function CentralsLength(es: seq<ZipEntry>): nat {
    if es == [] then 0 else CentralsLength(es[..|es| - 1]) + CentralLength(Pack(es[|es| - 1]))
  }

  // ----- the records, where they stand -----

  ghost predicate Holds(b: Bytes, at: nat, part: Bytes) { at + |part| <= |b| && b[at..at + |part|] == part }

  /** The fields a local file header and a central directory header share. */
  ghost predicate SharedAt(b: Bytes, at: nat, p: Packed) { WaysAt(b, at, p) && SizesAt(b, at + 8, p) }

  ghost predicate WaysAt(b: Bytes, at: nat, p: Packed) {
    at + 8 <= |b| && Has16(b, at, 0) && Has16(b, at + 2, p.kind) && Has16(b, at + 4, 0) && Has16(b, at + 6, 0)
  }

  ghost predicate SizesAt(b: Bytes, at: nat, p: Packed) {
    && at + 16 <= |b|
    && Has32(b, at, p.crc) && Has32(b, at + 4, |p.compressed|) && Has32(b, at + 8, p.rawLength)
    && Has16(b, at + 12, |p.name|) && Has16(b, at + 14, 0)
  }

  /** Comment length, disk, attributes, and where the local header stands. */
  ghost predicate PlaceAt(b: Bytes, at: nat, offset: nat) {
    && at + 14 <= |b|
    && Has16(b, at, 0) && Has16(b, at + 2, 0) && Has16(b, at + 4, 0) && Has32(b, at + 6, 0) && Has32(b, at + 10, offset)
  }

  /** Section 4.3.7: every field of a local file header, the name and the data. */
  ghost predicate LocalHeaderAt(b: Bytes, at: nat, p: Packed) {
    && at + 30 <= |b|
    && Has32(b, at, LOCAL_HEADER) && Has16(b, at + 4, VERSION_NEEDED) && SharedAt(b, at + 6, p)
  }

  ghost predicate LocalAt(b: Bytes, at: nat, p: Packed) {
    LocalHeaderAt(b, at, p) && Holds(b, at + 30, p.name) && Holds(b, at + 30 + |p.name|, p.compressed)
  }

  /** Section 4.3.12: every field of a central directory header, and the name. */
  ghost predicate CentralHeaderAt(b: Bytes, at: nat, p: Packed, offset: nat) {
    && at + 46 <= |b|
    && Has32(b, at, CENTRAL_HEADER) && Has16(b, at + 4, VERSION_NEEDED) && Has16(b, at + 6, VERSION_NEEDED)
    && SharedAt(b, at + 8, p)
    && PlaceAt(b, at + 32, offset)
  }

  ghost predicate CentralAt(b: Bytes, at: nat, p: Packed, offset: nat) {
    CentralHeaderAt(b, at, p, offset) && Holds(b, at + 46, p.name)
  }

  /** Section 4.3.16: every field of the end of central directory record. */
  ghost predicate EndAt(b: Bytes, at: nat, count: nat, length: nat, offset: nat) {
    && at + 22 <= |b|
    && Has32(b, at, END_OF_CENTRAL_DIRECTORY) && Has16(b, at + 4, 0) && Has16(b, at + 6, 0)
    && Has16(b, at + 8, count) && Has16(b, at + 10, count) && Has32(b, at + 12, length) && Has32(b, at + 16, offset)
    && Has16(b, at + 20, 0)
  }

  ghost predicate LocalsIn(b: Bytes, es: seq<ZipEntry>) {
    forall k :: 0 <= k < |es| ==> LocalAt(b, LocalsLength(es[..k]), Pack(es[k]))
  }

  /** Each directory entry records where its own local header stands. */
  ghost predicate CentralsIn(b: Bytes, start: nat, es: seq<ZipEntry>) {
    forall k :: 0 <= k < |es| ==> CentralAt(b, start + CentralsLength(es[..k]), Pack(es[k]), LocalsLength(es[..k]))
  }

  ghost predicate IsZipOf(b: Bytes, es: seq<ZipEntry>) {
    var locals, centrals := LocalsLength(es), CentralsLength(es);
    && |b| == locals + centrals + 22
    && LocalsIn(b, es)
    && CentralsIn(b, locals, es)
    && EndAt(b, locals + centrals, |es|, centrals, locals)
  }

  // ----- records move with the bytes they are in -----

  lemma {:induction false} LocalStays(b: Bytes, more: Bytes, at: nat, p: Packed)
    requires LocalAt(b, at, p)
    ensures LocalAt(b + more, at, p)
  {
    hide ByteOf;
    assert (b + more)[at + 30..at + 30 + |p.name|] == b[at + 30..at + 30 + |p.name|];
    var d := at + 30 + |p.name|;
    assert (b + more)[d..d + |p.compressed|] == b[d..d + |p.compressed|];
  }

  lemma {:induction false} CentralMoves(before: Bytes, b: Bytes, more: Bytes, at: nat, p: Packed, offset: nat)
    requires CentralAt(b, at, p, offset)
    ensures CentralAt(before + b + more, |before| + at, p, offset)
  {
    hide ByteOf;
    var all := before + b + more;
    assert forall i :: 0 <= i < |b| ==> all[|before| + i] == b[i];
    var d := at + 46;
    assert all[|before| + d..|before| + d + |p.name|] == b[d..d + |p.name|];
  }

  lemma {:induction false} EndMoves(before: Bytes, b: Bytes, count: nat, length: nat, offset: nat)
    requires EndAt(b, 0, count, length, offset)
    ensures EndAt(before + b, |before|, count, length, offset)
  {
    hide ByteOf;
    assert forall i :: 0 <= i < |b| ==> (before + b)[|before| + i] == b[i];
  }

  // ----- createZip -----

  datatype CreateFailure = UnusableName | DuplicateName | TooLarge | OutOfRange

  predicate HasDots(name: string) { exists i :: 1 <= i < |name| && name[i] == '.' && name[i - 1] == '.' }

  predicate IsUsable(name: string) { |name| > 0 && name[0] != '/' && !HasDots(name) }

  predicate IsNamed(es: seq<ZipEntry>, name: string) { exists i :: 0 <= i < |es| && es[i].name == name }

  /** Where the entry after `before` stops the writing, if it does. A number that
      does not fit its field makes the platform throw. */
  function EntryFailure(before: seq<ZipEntry>, e: ZipEntry): Option<CreateFailure> {
    var p := Pack(e);
    if !IsUsable(e.name) then Some(UnusableName)
    else if IsNamed(before, e.name) then Some(DuplicateName)
    else if p.rawLength > MAX_SIZE || |p.compressed| > MAX_SIZE then Some(TooLarge)
    else if |p.name| > 0xffff || LocalsLength(before) > 0xffffffff then Some(OutOfRange)
    else None
  }

  function EntriesFailure(es: seq<ZipEntry>): Option<CreateFailure> {
    if es == [] then None
    else
      var before := EntriesFailure(es[..|es| - 1]);
      if before.Some? then before else EntryFailure(es[..|es| - 1], es[|es| - 1])
  }

  function CreateFailureOf(es: seq<ZipEntry>): Option<CreateFailure> {
    var entries := EntriesFailure(es);
    if entries.Some? then entries
    else if |es| > 0xffff || CentralsLength(es) > 0xffffffff || LocalsLength(es) > 0xffffffff then Some(OutOfRange)
    else None
  }

  /** A name that is not empty, not absolute, and without ".." anywhere in it. */
  ghost predicate IsClean(name: string) {
    name != "" && name[0] != '/' && forall a: string, b: string :: name != a + ".." + b
  }

  lemma {:induction false} CleanIffUsable(name: string)
    ensures IsUsable(name) <==> IsClean(name)
  {
    if HasDots(name) {
      var i :| 1 <= i < |name| && name[i] == '.' && name[i - 1] == '.';
      assert name == name[..i - 1] + ".." + name[i + 1..];
    }
    if a: string, b: string :| name == a + ".." + b {
      assert name[|a|] == '.' && name[|a| + 1] == '.';
    }
  }

  /** Of an entry after these: why it cannot be written, the first reason there is. */
  lemma {:induction false} EntryFailureIs(before: seq<ZipEntry>, e: ZipEntry)
    ensures var failure, named := EntryFailure(before, e), exists b :: b in before && b.name == e.name;
            && (failure == Some(UnusableName) <==> !IsClean(e.name))
            && (failure == Some(DuplicateName) <==> IsClean(e.name) && named)
            && (failure == Some(TooLarge) <==> IsClean(e.name) && !named && |e.data| > 0xffffffff)
            && (failure == Some(OutOfRange) <==>
                  && IsClean(e.name) && !named && |e.data| <= 0xffffffff
                  && (|Utf8(e.name)| > 0xffff || LocalsLength(before) > 0xffffffff))
  {
    hide IsClean, IsUsable, LocalsLength;
    CleanIffUsable(e.name);
    if b :| b in before && b.name == e.name {
      var i :| 0 <= i < |before| && before[i] == b;
      assert before[i].name == e.name;
    }
    if IsNamed(before, e.name) {
      var i :| 0 <= i < |before| && before[i].name == e.name;
      assert before[i] in before;
    }
  }

  ghost predicate FirstToFail(es: seq<ZipEntry>, i: nat) {
    && i < |es| && EntryFailure(es[..i], es[i]).Some?
    && forall k :: 0 <= k < i ==> EntryFailure(es[..k], es[k]).None?
  }

  lemma {:induction false} EntriesFailureIs(es: seq<ZipEntry>)
    ensures EntriesFailure(es).None? <==> forall i :: 0 <= i < |es| ==> EntryFailure(es[..i], es[i]).None?
    ensures forall i: nat :: FirstToFail(es, i) ==> EntriesFailure(es) == EntryFailure(es[..i], es[i])
    decreases |es|
  {
    hide EntryFailure;
    if es != [] {
      var front := es[..|es| - 1];
      EntriesFailureIs(front);
      assert forall k :: 0 <= k < |front| ==> es[..k] == front[..k] && es[k] == front[k];
      forall i: nat | FirstToFail(es, i)
        ensures EntriesFailure(es) == EntryFailure(es[..i], es[i])
      {
        if i < |front| {
          assert FirstToFail(front, i);
        }
      }
    }
  }

  /** createZip fails as the first entry that cannot be written does; where every entry
      can, exactly when the directory does not fit its fields. */
  lemma {:induction false} FailsAsTheFirst(es: seq<ZipEntry>)
    ensures forall i: nat :: FirstToFail(es, i) ==> CreateFailureOf(es) == EntryFailure(es[..i], es[i])
    ensures (forall i :: 0 <= i < |es| ==> EntryFailure(es[..i], es[i]).None?) ==>
              CreateFailureOf(es) ==
                if |es| <= 0xffff && LocalsLength(es) <= 0xffffffff && CentralsLength(es) <= 0xffffffff
                then None else Some(OutOfRange)
  {
    hide EntryFailure, LocalsLength, CentralsLength;
    EntriesFailureIs(es);
  }

  method WriteWays(a: array<byte>, p: Packed, at: nat)
    requires at + 8 <= a.Length
    modifies a
    ensures WaysAt(a[..], at, p)
    ensures forall i :: 0 <= i < a.Length && !(at <= i < at + 8) ==> a[i] == old(a[i])
  {
    hide ByteOf;
    Write16(a, 0, at);
    Write16(a, p.kind, at + 2);
    Write16(a, 0, at + 4);
    Write16(a, 0, at + 6);
  }

  method WriteSizes(a: array<byte>, p: Packed, at: nat)
    requires at + 16 <= a.Length
    modifies a
    ensures SizesAt(a[..], at, p)
    ensures forall i :: 0 <= i < a.Length && !(at <= i < at + 16) ==> a[i] == old(a[i])
  {
    hide ByteOf;
    Write32(a, p.crc, at);
    Write32(a, |p.compressed|, at + 4);
    Write32(a, p.rawLength, at + 8);
    Write16(a, |p.name|, at + 12);
    Write16(a, 0, at + 14);
  }

  method WritePlace(a: array<byte>, offset: nat, at: nat)
    requires at + 14 <= a.Length
    modifies a
    ensures PlaceAt(a[..], at, offset)
    ensures forall i :: 0 <= i < a.Length && !(at <= i < at + 14) ==> a[i] == old(a[i])
  {
    hide ByteOf;
    Write16(a, 0, at);
    Write16(a, 0, at + 2);
    Write16(a, 0, at + 4);
    Write32(a, 0, at + 6);
    Write32(a, offset, at + 10);
  }

  method NewLocalHeader(p: Packed) returns (b: Bytes)
    ensures |b| == 30 && LocalHeaderAt(b, 0, p)
  {
    hide ByteOf, WaysAt, SizesAt, LocalHeaderAt;
    var a := new byte[30](i => 0);
    Write32(a, LOCAL_HEADER, 0);
    Write16(a, VERSION_NEEDED, 4);
    ghost var start := a[..];
    WriteWays(a, p, 6);
    ghost var ways := a[..];
    WriteSizes(a, p, 14);
    b := a[..];
    assert b[..6] == start[..6] && b[6..14] == ways[6..14];
    LocalFromParts(b, start, ways, p);
  }

  lemma {:induction false} LocalFromParts(b: Bytes, start: Bytes, ways: Bytes, p: Packed)
    requires |b| == |start| == |ways| == 30
    requires Has32(start, 0, LOCAL_HEADER) && Has16(start, 4, VERSION_NEEDED) && WaysAt(ways, 6, p) && SizesAt(b, 14, p)
    requires b[..6] == start[..6] && b[6..14] == ways[6..14]
    ensures LocalHeaderAt(b, 0, p)
  {
    hide ByteOf, SizesAt;
    assert forall i :: 0 <= i < 6 ==> b[i] == start[..6][i];
    assert forall i :: 6 <= i < 14 ==> b[i] == ways[6..14][i - 6];
  }

  method NewCentralHeader(p: Packed, offset: nat) returns (b: Bytes)
    ensures |b| == 46 && CentralHeaderAt(b, 0, p, offset)
  {
    hide ByteOf, WaysAt, SizesAt, PlaceAt, CentralHeaderAt;
    var a := new byte[46](i => 0);
    Write32(a, CENTRAL_HEADER, 0);
    Write16(a, VERSION_NEEDED, 4);
    Write16(a, VERSION_NEEDED, 6);
    ghost var start := a[..];
    WriteWays(a, p, 8);
    ghost var ways := a[..];
    WriteSizes(a, p, 16);
    ghost var sizes := a[..];
    WritePlace(a, offset, 32);
    b := a[..];
    assert b[..8] == start[..8] && b[8..16] == ways[8..16] && b[16..32] == sizes[16..32];
    CentralFromParts(b, start, ways, sizes, p, offset);
  }

  lemma {:induction false} CentralFromParts(b: Bytes, start: Bytes, ways: Bytes, sizes: Bytes, p: Packed, offset: nat)
    requires |b| == |start| == |ways| == |sizes| == 46
    requires Has32(start, 0, CENTRAL_HEADER) && Has16(start, 4, VERSION_NEEDED) && Has16(start, 6, VERSION_NEEDED)
    requires WaysAt(ways, 8, p) && SizesAt(sizes, 16, p) && PlaceAt(b, 32, offset)
    requires b[..8] == start[..8] && b[8..16] == ways[8..16] && b[16..32] == sizes[16..32]
    ensures CentralHeaderAt(b, 0, p, offset)
  {
    hide ByteOf, PlaceAt;
    assert forall i :: 0 <= i < 8 ==> b[i] == start[..8][i];
    assert forall i :: 8 <= i < 16 ==> b[i] == ways[8..16][i - 8];
    assert forall i :: 16 <= i < 32 ==> b[i] == sizes[16..32][i - 16];
  }

  method NewEndRecord(count: nat, length: nat, offset: nat) returns (b: Bytes)
    ensures |b| == 22 && EndAt(b, 0, count, length, offset)
  {
    hide ByteOf, EndAt;
    var a := new byte[22](i => 0);
    Write32(a, END_OF_CENTRAL_DIRECTORY, 0);
    Write16(a, 0, 4);
    Write16(a, 0, 6);
    Write16(a, count, 8);
    ghost var start := a[..];
    Write16(a, count, 10);
    Write32(a, length, 12);
    Write32(a, offset, 16);
    Write16(a, 0, 20);
    b := a[..];
    assert b[..10] == start[..10];
    EndFromParts(b, start, count, length, offset);
  }

  lemma {:induction false} EndFromParts(b: Bytes, start: Bytes, count: nat, length: nat, offset: nat)
    requires |b| == |start| == 22 && b[..10] == start[..10]
    requires Has32(start, 0, END_OF_CENTRAL_DIRECTORY) && Has16(start, 4, 0) && Has16(start, 6, 0)
              && Has16(start, 8, count)
    requires Has16(b, 10, count) && Has32(b, 12, length) && Has32(b, 16, offset) && Has16(b, 20, 0)
    ensures EndAt(b, 0, count, length, offset)
  {
    hide ByteOf;
    assert forall i :: 0 <= i < 10 ==> b[i] == start[..10][i];
  }

  method PackEntry(e: ZipEntry) returns (p: Packed)
    ensures p == Pack(e)
  {
    var deflated := Deflate(e.data);
    var compressed := if |deflated| < |e.data| then deflated else e.data;
    var kind := if |deflated| < |e.data| then METHOD_DEFLATED else METHOD_STORED;
    var crc := Crc32.Crc32(e.data);
    return Packed(Utf8(e.name), kind, crc as nat, compressed, |e.data|);
  }

  /** What is written before entry i. */
  ghost predicate WrittenTo(es: seq<ZipEntry>, i: nat, names: set<string>, locals: Bytes, centrals: Bytes) {
    && i <= |es| && EntriesFailure(es[..i]) == None
    && (forall n :: n in names <==> IsNamed(es[..i], n))
    && |locals| == LocalsLength(es[..i]) && LocalsIn(locals, es[..i])
    && |centrals| == CentralsLength(es[..i]) && CentralsIn(centrals, 0, es[..i])
  }

  lemma {:induction false} NothingWritten(es: seq<ZipEntry>)
    ensures WrittenTo(es, 0, {}, [], [])
  {
  }

  lemma {:induction false} FailureStays(es: seq<ZipEntry>, n: nat)
    requires n <= |es| && EntriesFailure(es[..n]).Some?
    ensures EntriesFailure(es) == EntriesFailure(es[..n])
    decreases |es|
  {
    hide EntryFailure;
    if n < |es| {
      assert es[..|es| - 1][..n] == es[..n];
      FailureStays(es[..|es| - 1], n);
    } else {
      assert es[..n] == es;
    }
  }

  lemma {:induction false} FailsAt(es: seq<ZipEntry>, i: nat, names: set<string>, locals: Bytes, centrals: Bytes)
    requires i < |es| && WrittenTo(es, i, names, locals, centrals) && EntryFailure(es[..i], es[i]).Some?
    ensures CreateFailureOf(es) == EntryFailure(es[..i], es[i])
  {
    hide EntryFailure, LocalsIn, CentralsIn;
    assert es[..i + 1][..i] == es[..i];
    FailureStays(es, i + 1);
  }

  lemma {:induction false} LocalsLengthStep(es: seq<ZipEntry>, i: nat)
    requires i < |es|
    ensures LocalsLength(es[..i + 1]) == LocalsLength(es[..i]) + LocalLength(Pack(es[i]))
  {
    assert es[..i + 1][..i] == es[..i];
  }

  lemma {:induction false} CentralsLengthStep(es: seq<ZipEntry>, i: nat)
    requires i < |es|
    ensures CentralsLength(es[..i + 1]) == CentralsLength(es[..i]) + CentralLength(Pack(es[i]))
  {
    assert es[..i + 1][..i] == es[..i];
  }

  lemma {:induction false} OneMoreLocal(es: seq<ZipEntry>, i: nat, locals: Bytes, header: Bytes)
    requires i < |es| && |locals| == LocalsLength(es[..i]) && LocalsIn(locals, es[..i])
    requires |header| == 30 && LocalHeaderAt(header, 0, Pack(es[i]))
    ensures var p := Pack(es[i]);
            var all := locals + (header + p.name + p.compressed);
            |all| == LocalsLength(es[..i + 1]) && LocalsIn(all, es[..i + 1])
  {
    hide LocalAt, Pack, LocalsLength, LocalHeaderAt;
    LocalsLengthStep(es, i);
    var p, more := Pack(es[i]), es[..i + 1];
    var record := header + p.name + p.compressed;
    assert more[..i] == es[..i];
    forall k | 0 <= k < |more|
      ensures LocalAt(locals + record, LocalsLength(more[..k]), Pack(more[k]))
    {
      if k < i {
        assert es[..i][..k] == more[..k];
        LocalStays(locals, record, LocalsLength(more[..k]), Pack(more[k]));
      } else {
        LocalRecord(locals, header, p);
      }
    }
  }

  lemma {:induction false} LocalRecord(locals: Bytes, header: Bytes, p: Packed)
    requires |header| == 30 && LocalHeaderAt(header, 0, p)
    ensures LocalAt(locals + (header + p.name + p.compressed), |locals|, p)
  {
    hide ByteOf;
    var all := locals + (header + p.name + p.compressed);
    assert forall i :: 0 <= i < 30 ==> all[|locals| + i] == header[i];
    assert all[|locals| + 30..|locals| + 30 + |p.name|] == p.name;
    var d := |locals| + 30 + |p.name|;
    assert all[d..d + |p.compressed|] == p.compressed;
  }

  lemma {:induction false} OneMoreCentral(es: seq<ZipEntry>, i: nat, centrals: Bytes, header: Bytes)
    requires i < |es| && |centrals| == CentralsLength(es[..i]) && CentralsIn(centrals, 0, es[..i])
    requires |header| == 46 && CentralHeaderAt(header, 0, Pack(es[i]), LocalsLength(es[..i]))
    ensures var all := centrals + (header + Pack(es[i]).name);
            |all| == CentralsLength(es[..i + 1]) && CentralsIn(all, 0, es[..i + 1])
  {
    hide CentralAt, Pack, LocalsLength, CentralsLength, CentralHeaderAt;
    CentralsLengthStep(es, i);
    var p, more := Pack(es[i]), es[..i + 1];
    var record := header + p.name;
    assert more[..i] == es[..i];
    assert [] + centrals + record == centrals + record;
    forall k | 0 <= k < |more|
      ensures CentralAt(centrals + record, 0 + CentralsLength(more[..k]), Pack(more[k]), LocalsLength(more[..k]))
    {
      if k < i {
        assert es[..i][..k] == more[..k];
        CentralMoves([], centrals, record, 0 + CentralsLength(more[..k]), Pack(more[k]), LocalsLength(more[..k]));
      } else {
        CentralRecord(centrals, header, p, LocalsLength(es[..i]));
      }
    }
  }

  lemma {:induction false} CentralRecord(centrals: Bytes, header: Bytes, p: Packed, offset: nat)
    requires |header| == 46 && CentralHeaderAt(header, 0, p, offset)
    ensures CentralAt(centrals + (header + p.name), |centrals|, p, offset)
  {
    hide ByteOf;
    var all := centrals + (header + p.name);
    assert forall i :: 0 <= i < 46 ==> all[|centrals| + i] == header[i];
    assert all[|centrals| + 46..|centrals| + 46 + |p.name|] == p.name;
  }

  lemma {:induction false} OneMoreWritten(
      es: seq<ZipEntry>, i: nat, names: set<string>, locals: Bytes, centrals: Bytes, local: Bytes, central: Bytes)
    requires i < |es| && WrittenTo(es, i, names, locals, centrals) && EntryFailure(es[..i], es[i]).None?
    requires |local| == 30 && LocalHeaderAt(local, 0, Pack(es[i]))
    requires |central| == 46 && CentralHeaderAt(central, 0, Pack(es[i]), LocalsLength(es[..i]))
    ensures var p := Pack(es[i]);
            WrittenTo(es, i + 1, names + {es[i].name}, locals + (local + p.name + p.compressed), centrals
                + (central + p.name))
  {
    hide EntryFailure, LocalsIn, CentralsIn, LocalHeaderAt, CentralHeaderAt, LocalsLength, CentralsLength, Pack;
    OneMoreLocal(es, i, locals, local);
    OneMoreCentral(es, i, centrals, central);
    assert es[..i + 1][..i] == es[..i];
    assert forall n :: IsNamed(es[..i + 1], n) <==> IsNamed(es[..i], n) || n == es[i].name by {
      forall n
        ensures IsNamed(es[..i + 1], n) <==> IsNamed(es[..i], n) || n == es[i].name
      {
        if IsNamed(es[..i], n) {
          var j :| 0 <= j < i && es[..i][j].name == n;
          assert es[..i + 1][j].name == n;
        }
        assert es[..i + 1][i].name == es[i].name;
      }
    }
  }

  lemma {:induction false} Assembled(es: seq<ZipEntry>, names: set<string>, locals: Bytes, centrals: Bytes, end: Bytes)
    requires WrittenTo(es, |es|, names, locals, centrals)
    requires |end| == 22 && EndAt(end, 0, |es|, |centrals|, |locals|)
    ensures EntriesFailure(es) == None && |locals| == LocalsLength(es) && |centrals| == CentralsLength(es)
    ensures IsZipOf(locals + centrals + end, es)
  {
    hide *;
    AllWritten(es, names, locals, centrals);
    LocalsStay(locals, centrals + end, es);
    CentralsMove(locals, centrals, end, es);
    EndMoves(locals + centrals, end, |es|, |centrals|, |locals|);
    assert locals + centrals + end == locals + (centrals + end);
    PartsMakeZip(locals + centrals + end, es);
  }

  lemma {:induction false} PartsMakeZip(b: Bytes, es: seq<ZipEntry>)
    requires LocalsIn(b, es) && CentralsIn(b, LocalsLength(es), es)
    requires |b| == LocalsLength(es) + CentralsLength(es) + 22
    requires EndAt(b, LocalsLength(es) + CentralsLength(es), |es|, CentralsLength(es), LocalsLength(es))
    ensures IsZipOf(b, es)
  {
    hide LocalsIn, CentralsIn, EndAt, LocalsLength, CentralsLength;
  }

  lemma {:induction false} AllWritten(es: seq<ZipEntry>, names: set<string>, locals: Bytes, centrals: Bytes)
    requires WrittenTo(es, |es|, names, locals, centrals)
    ensures EntriesFailure(es) == None && |locals| == LocalsLength(es) && |centrals| == CentralsLength(es)
    ensures LocalsIn(locals, es) && CentralsIn(centrals, 0, es)
  {
    hide LocalsIn, CentralsIn, EntriesFailure, LocalsLength, CentralsLength, IsNamed;
    assert es[..|es|] == es;
  }

  lemma {:induction false} LocalsStay(b: Bytes, more: Bytes, es: seq<ZipEntry>)
    requires LocalsIn(b, es)
    ensures LocalsIn(b + more, es)
  {
    hide LocalAt, Pack, LocalsLength;
    forall k | 0 <= k < |es|
      ensures LocalAt(b + more, LocalsLength(es[..k]), Pack(es[k]))
    {
      LocalStays(b, more, LocalsLength(es[..k]), Pack(es[k]));
    }
  }

  lemma {:induction false} CentralsMove(before: Bytes, b: Bytes, more: Bytes, es: seq<ZipEntry>)
    requires CentralsIn(b, 0, es)
    ensures CentralsIn(before + b + more, |before|, es)
  {
    hide CentralAt, Pack, LocalsLength, CentralsLength;
    forall k | 0 <= k < |es|
      ensures CentralAt(before + b + more, |before| + CentralsLength(es[..k]), Pack(es[k]), LocalsLength(es[..k]))
    {
      assert CentralAt(b, 0 + CentralsLength(es[..k]), Pack(es[k]), LocalsLength(es[..k]));
      CentralMoves(before, b, more, CentralsLength(es[..k]), Pack(es[k]), LocalsLength(es[..k]));
    }
  }

  method CreateZip(es: seq<ZipEntry>) returns (r: Result<Bytes, CreateFailure>)
    ensures CreateFailureOf(es).Some? ==> r == Err(CreateFailureOf(es).value)
    ensures CreateFailureOf(es).None? ==> r.Ok? && IsZipOf(r.value, es)
  {
    hide WrittenTo, EntriesFailure, LocalsLength, CentralsLength, LocalHeaderAt, CentralHeaderAt, EndAt, IsZipOf,
        Pack, IsNamed;
    var names: set<string> := {};
    var locals, centrals: Bytes := [], [];
    NothingWritten(es);
    for i := 0 to |es|
      invariant WrittenTo(es, i, names, locals, centrals)
    {
      WrittenFacts(es, i, names, locals, centrals);
      var p := PackEntry(es[i]);
      if EntryFailure(es[..i], es[i]).Some? {
        FailsAt(es, i, names, locals, centrals);
      }
      if !IsUsable(es[i].name) {
        return Err(UnusableName);
      }
      if es[i].name in names {
        return Err(DuplicateName);
      }
      if p.rawLength > MAX_SIZE || |p.compressed| > MAX_SIZE {
        return Err(TooLarge);
      }
      if |p.name| > 0xffff || |locals| > 0xffffffff {
        return Err(OutOfRange);
      }
      var local := NewLocalHeader(p);
      var central := NewCentralHeader(p, |locals|);
      OneMoreWritten(es, i, names, locals, centrals, local, central);
      names := names + {es[i].name};
      locals := locals + (local + p.name + p.compressed);
      centrals := centrals + (central + p.name);
    }
    var end := NewEndRecord(|es|, |centrals|, |locals|);
    Assembled(es, names, locals, centrals, end);
    if |es| > 0xffff || |centrals| > 0xffffffff || |locals| > 0xffffffff {
      return Err(OutOfRange);
    }
    return Ok(locals + centrals + end);
  }

  lemma {:induction false} WrittenFacts(es: seq<ZipEntry>, i: nat, names: set<string>, locals: Bytes, centrals: Bytes)
    requires WrittenTo(es, i, names, locals, centrals)
    ensures |locals| == LocalsLength(es[..i]) && forall n :: n in names <==> IsNamed(es[..i], n)
  {
  }
}
