/**
  A whole bundle as the writer lays it out, and the reader that rebuilds its index.
*/
module ZipArchive {
  import opened Common
  import opened ZipFormat
  import opened ZipRecords

  datatype IndexEntry = IndexEntry(offset: nat, csize: nat, usize: nat, compression: nat, crc: nat)

  type Index = map<Bytes, IndexEntry>

  datatype Error =
    | BadName | NoEocd | LocatorMissing | Zip64Missing | CorruptEntry | Encrypted | BadCompression | LocalMissing
    | OutOfRange | Unsafe

  // ---- entry names ----

  const SLASH: Byte := 0x2f
  const DOT: Byte := 0x2e
  const BACKSLASH: Byte := 0x5c
  const COLON: Byte := 0x3a

  function Segments(name: Bytes): (parts: seq<Bytes>)
    ensures parts != []
  {
    if name == [] then [[]]
    else
      var rest := Segments(name[1..]);
      if name[0] == SLASH then [[]] + rest else [[name[0]] + rest[0]] + rest[1..]
  }

  predicate Letter(b: Byte) {
    0x41 <= b <= 0x5a || 0x61 <= b <= 0x7a
  }

  /** A relative, slash-separated path without empty, `.` or `..` parts, backslashes or a drive letter. */
  predicate ValidName(name: Bytes) {
    && name != []
    && !([SLASH] <= name)
    && !([DOT, SLASH] <= name)
    && BACKSLASH !in name
    && [] !in Segments(name) && [DOT] !in Segments(name) && [DOT, DOT] !in Segments(name)
    && !(|name| >= 2 && Letter(name[0]) && name[1] == COLON)
  }

  lemma {:induction false} LastSegment(name: Bytes)
    requires name != [] && name[|name| - 1] == SLASH
    ensures [] in Segments(name)
    decreases |name|, 1
  {
    var rest := Segments(name[1..]);
    if |name| == 1 {
      assert Segments(name) == [[]] + rest;
    } else {
      LastSegment(name[1..]);
      if name[0] == SLASH {
        assert Segments(name) == [[]] + rest;
      } else {
        var k :| 0 <= k < |rest| && rest[k] == [];
        if k == 0 {
          EmptyFirst(name[1..]);
          assert name[1] == SLASH;
          SlashTail(name);
        } else {
          assert Segments(name)[k] == rest[k];
        }
      }
    }
  }

  lemma {:induction false} EmptyFirst(name: Bytes)
    requires name != [] && Segments(name)[0] == []
    ensures name[0] == SLASH
  {}

  /** A name whose second byte is a slash and whose last byte is one too still has an empty part further on. */
  lemma {:induction false} SlashTail(name: Bytes)
    requires |name| >= 2 && name[1] == SLASH && name[|name| - 1] == SLASH && name[0] != SLASH
    ensures [] in Segments(name)
    decreases |name|, 0
  {
    var rest := Segments(name[1..]);
    var more := Segments(name[2..]);
    assert name[1..][1..] == name[2..];
    assert rest == [[]] + more;
    if |name| == 2 {
      assert more == [[]];
      assert Segments(name)[1] == [];
    } else {
      LastSegment(name[2..]);
      var k :| 0 <= k < |more| && more[k] == [];
      assert Segments(name)[k + 1] == more[k];
    }
  }

  // ---- the writer's layout ----

  function Locals(es: seq<Entry>): Bytes {
    if es == [] then [] else LocalBytes(es[0]) + es[0].body + Locals(es[1..])
  }

  function SizeOf(e: Entry): nat {
    |LocalBytes(e)| + |e.body|
  }

  /** The central directory of entries whose local records start at `start`. */
  function Central(es: seq<Entry>, start: nat): Bytes {
    if es == [] then [] else CentralBytes(es[0], start) + Central(es[1..], start + SizeOf(es[0]))
  }

  function IndexFor(e: Entry, start: nat): IndexEntry {
    IndexEntry(start + |LocalBytes(e)|, |e.body|, e.usize, e.compression, e.crc)
  }

  /** The index the writer hands out; a later entry of the same name replaces an earlier one. */
  function IndexOf(es: seq<Entry>, start: nat): Index {
    if es == [] then map[] else map[es[0].name := IndexFor(es[0], start)] + IndexOf(es[1..], start + SizeOf(es[0]))
  }

  predicate NeedsZip64(count: nat, cdSize: nat, cdOffset: nat) {
    count > U16_MAX || cdSize > U32_MAX || cdOffset > U32_MAX
  }

  function Trailer(count: nat, cdSize: nat, cdOffset: nat): Bytes {
    if NeedsZip64(count, cdSize, cdOffset) then
      Zip64EocdBytes(count, cdSize, cdOffset) + LocatorBytes(cdOffset + cdSize) + EocdBytes(U16_MAX, U32_MAX, U32_MAX)
    else EocdBytes(count, cdSize, cdOffset)
  }

  function Archive(es: seq<Entry>): Bytes {
    Locals(es) + Central(es, 0) + Trailer(|es|, |Central(es, 0)|, |Locals(es)|)
  }

  /** What the writer accepts without throwing: valid names, and every value within its field's width. */
  predicate Writable(es: seq<Entry>) {
    && (forall i :: 0 <= i < |es| ==> WritableEntry(es[i]))
    && |Archive(es)| <= MAX_SAFE
  }

  predicate WritableEntry(e: Entry) {
    ValidName(e.name) && |e.name| <= U16_MAX && e.compression <= U16_MAX && e.crc <= U32_MAX && e.usize <= MAX_SAFE
  }

  // ---- the reader ----

  /** Bytes start..end, both included, clipped to the file. */
  function ReadRange(b: Bytes, start: int, end: int): Bytes {
    var s, e := Max(0, start), Min(end, |b| - 1);
    if s > e then [] else b[s..e + 1]
  }

  predicate EocdAt(tail: Bytes, i: nat) {
    i + 22 <= |tail| && U32At(tail, i) == SIG_EOCD && i + 22 + U16At(tail, i + 20) == |tail|
  }

  /** The last position at or before i where an end record fits exactly, or -1. */
  function FindEocdFrom(tail: Bytes, i: int): (k: int)
    ensures k == -1 || (0 <= k <= i && EocdAt(tail, k))
    ensures forall j :: Max(k, -1) < j <= i ==> !EocdAt(tail, j)
    decreases i + 1
  {
    if i < 0 then -1 else if EocdAt(tail, i) then i else FindEocdFrom(tail, i - 1)
  }

  datatype Fields = Fields(usize: nat, csize: nat, localOffset: nat)

  /** A 32-bit field, or the next 64-bit value of the extra field when it holds the escape value. */
  function NextValue(field: nat, extra: Bytes, z: nat): Result<(nat, nat), Error> {
    if field != U32_MAX then Ok((field, z))
    else if !Fits(extra, z, 8) then Err(OutOfRange)
    else if U64At(extra, z) > MAX_SAFE then Err(Unsafe)
    else Ok((U64At(extra, z), z + 8))
  }

  function TakeValues(f: Fields, extra: Bytes, z: nat): Result<Fields, Error> {
    var (usize, z1) :- NextValue(f.usize, extra, z);
    var (csize, z2) :- NextValue(f.csize, extra, z1);
    var (offset, _) :- NextValue(f.localOffset, extra, z2);
    Ok(Fields(usize, csize, offset))
  }

  function ApplyExtra(f: Fields, extra: Bytes, pos: nat): Result<Fields, Error>
    decreases |extra| - pos
  {
    if pos + 4 <= |extra| then
      if U16At(extra, pos) == EXTRA_ZIP64 then TakeValues(f, extra, pos + 4)
      else ApplyExtra(f, extra, pos + 4 + U16At(extra, pos + 2))
    else Ok(f)
  }

  function Clip(b: Bytes, from: nat, to: nat): Bytes {
    b[Min(from, |b|)..Max(Min(from, |b|), Min(to, |b|))]
  }

  /** Where the contents of an entry start, read from its local record. */
  function ReadLocal(b: Bytes, offset: nat): Result<nat, Error> {
    var local := ReadRange(b, offset, offset + 29);
    if |local| < 4 then Err(OutOfRange)
    else if U32At(local, 0) != SIG_LOCAL then Err(LocalMissing)
    else if |local| < 30 then Err(OutOfRange)
    else Ok(offset + 30 + U16At(local, 26) + U16At(local, 28))
  }

  datatype Parsed = Parsed(name: Bytes, entry: Option<IndexEntry>, length: nat)

  /** The central directory entry at the front of h. */
  function ReadEntry(b: Bytes, h: Bytes): Result<Parsed, Error> {
    if |h| < 4 then Err(OutOfRange)
    else if U32At(h, 0) != SIG_CENTRAL then Err(CorruptEntry)
    else if |h| < 46 then Err(OutOfRange)
    else
      var n, x := U16At(h, 28), U16At(h, 30);
      var name, extra := Clip(h, 46, 46 + n), Clip(h, 46 + n, 46 + n + x);
      var compression := U16At(h, 10);
      if U16At(h, 8) % 2 == 1 then Err(Encrypted)
      else if compression != STORE && compression != DEFLATE then Err(BadCompression)
      else
        var f :- ApplyExtra(Fields(U32At(h, 24), U32At(h, 20), U32At(h, 42)), extra, 0);
        if !ValidName(name) then Err(BadName)
        else
          var length := 46 + n + x + U16At(h, 32);
          if name[|name| - 1] == SLASH then Ok(Parsed(name, None, length))
          else
            var data :- ReadLocal(b, f.localOffset);
            Ok(Parsed(name, Some(IndexEntry(data, f.csize, f.usize, compression, U32At(h, 16))), length))
  }

  function Listed(p: Parsed): Index {
    if p.entry.Some? then map[p.name := p.entry.value] else map[]
  }

  function From(b: Bytes, k: nat): Bytes {
    if k <= |b| then b[k..] else []
  }

  function ReadEntries(b: Bytes, central: Bytes, cursor: nat, n: nat): Result<Index, Error>
    decreases n
  {
    if n == 0 then Ok(map[])
    else
      var p :- ReadEntry(b, From(central, cursor));
      var rest :- ReadEntries(b, central, cursor + p.length, n - 1);
      Ok(Listed(p) + rest)
  }

  datatype Directory = Directory(count: nat, size: nat, offset: nat)

  /** Where the central directory is, following the ZIP64 records when a field holds its escape value. */
  function ReadDirectory(b: Bytes): Result<Directory, Error> {
    var tailStart := Max(0, |b| - EOCD_MAX);
    var tail := ReadRange(b, tailStart, |b| - 1);
    var k := FindEocdFrom(tail, |tail| - 22);
    if k < 0 then Err(NoEocd)
    else
      var d := Directory(U16At(tail, k + 10), U32At(tail, k + 12), U32At(tail, k + 16));
      if d.count == U16_MAX || d.size == U32_MAX || d.offset == U32_MAX then ReadZip64(b, tailStart + k)
      else Ok(d)
  }

  function ReadZip64(b: Bytes, eocdAbs: nat): Result<Directory, Error> {
    var locator := ReadRange(b, eocdAbs - 20, eocdAbs - 1);
    if |locator| < 4 then Err(OutOfRange)
    else if U32At(locator, 0) != SIG_ZIP64_LOCATOR then Err(LocatorMissing)
    else
      var at :- Word64(locator, 8);
      var zip64 := ReadRange(b, at, at + 55);
      if |zip64| < 4 then Err(OutOfRange)
      else if U32At(zip64, 0) != SIG_ZIP64_EOCD then Err(Zip64Missing)
      else
        var count :- Word64(zip64, 32);
        var size :- Word64(zip64, 40);
        var offset :- Word64(zip64, 48);
        Ok(Directory(count, size, offset))
  }

  function Word64(b: Bytes, o: nat): Result<nat, Error> {
    if !Fits(b, o, 8) then Err(OutOfRange) else if U64At(b, o) > MAX_SAFE then Err(Unsafe) else Ok(U64At(b, o))
  }

  function RebuildIndex(b: Bytes): Result<Index, Error> {
    var d :- ReadDirectory(b);
    ReadEntries(b, ReadRange(b, d.offset, d.offset + d.size - 1), 0, d.count)
  }
}
