/**
  What the writer lays out is what the reader rebuilds — and exactly when.

  The writer escapes a value to ZIP64 when it is greater than the field's maximum; the
  reader takes the maximum itself for an escape. The two disagree on a value that equals
  the maximum exactly.
*/
module ZipRoundTrip {
  import opened Common
  import opened ZipFormat
  import opened ZipRecords
  import opened ZipArchive

  /** Some value of the entry is escaped while another one equals the escape value without being escaped. */
  predicate EntryClash(e: Entry, start: nat) {
    CentralValues(e, start) != [] && (e.usize == U32_MAX || |e.body| == U32_MAX || start == U32_MAX)
  }

  /** The end record carries an escape value the writer did not mean as one. */
  predicate EocdClash(count: nat, cdSize: nat, cdOffset: nat) {
    !NeedsZip64(count, cdSize, cdOffset) && (count == U16_MAX || cdSize == U32_MAX || cdOffset == U32_MAX)
  }

  predicate Readable(es: seq<Entry>, start: nat) {
    es != [] ==>
      && (es[0].compression == STORE || es[0].compression == DEFLATE)
      && !EntryClash(es[0], start)
      && Readable(es[1..], start + SizeOf(es[0]))
  }

  predicate Exact(es: seq<Entry>) {
    Readable(es, 0) && !EocdClash(|es|, |Central(es, 0)|, |Locals(es)|)
  }

  /** The central directory happens to end in something that starts like a ZIP64 locator. */
  predicate StrayLocator(es: seq<Entry>) {
    var cd := Central(es, 0);
    |cd| >= 20 && U32At(cd, |cd| - 20) == SIG_ZIP64_LOCATOR
  }

  // ---- the extra field ----

  lemma {:induction false} WordAt(values: seq<nat>, i: nat)
    requires i < |values|
    ensures Holds(Words(values), 8 * i, LE8(values[i]))
  {
    if i > 0 {
      WordAt(values[1..], i - 1);
      var w := Words(values[1..]);
      forall k | 0 <= k < 8 ensures Words(values)[8 * i + k] == LE8(values[i])[k] {
        assert w[8 * (i - 1) + k] == LE8(values[1..][i - 1])[k];
      }
    }
  }

  lemma {:induction false} ExtraWords(values: seq<nat>, i: nat)
    requires i < |values| <= 3 && values[i] <= MAX_SAFE
    ensures var x := Extra64(values);
            && U16At(x, 0) == EXTRA_ZIP64
            && Fits(x, 4 + 8 * i, 8) && U64At(x, 4 + 8 * i) == values[i]
            && !Fits(x, 4 + 8 * |values|, 8)
  {
    var x := Extra64(values);
    Read2(x, 0, EXTRA_ZIP64);
    WordAt(values, i);
    forall k | 0 <= k < 8 ensures x[4 + 8 * i + k] == LE8(values[i])[k] {
      assert Words(values)[8 * i + k] == LE8(values[i])[k];
    }
    Read8(x, 4 + 8 * i, values[i]);
  }

  /** The reader recovers all three values from the escapes, or runs off the extra field when there is a clash. */
  lemma {:induction false} ExtraReads(e: Entry, start: nat)
    requires e.usize <= MAX_SAFE && |e.body| <= MAX_SAFE && start <= MAX_SAFE
    ensures ApplyExtra(Fields(Escaped(e.usize), Escaped(|e.body|), Escaped(start)), CentralExtra(e, start), 0)
         == if EntryClash(e, start) then Err(OutOfRange) else Ok(Fields(e.usize, |e.body|, start))
  {
    var vs := CentralValues(e, start);
    if |vs| > 0 { ExtraWords(vs, 0); }
    if |vs| > 1 { ExtraWords(vs, 1); }
    if |vs| > 2 { ExtraWords(vs, 2); }
  }

  // ---- one entry ----

  lemma {:induction false} LocalReads(b: Bytes, e: Entry, start: nat)
    requires Holds(b, start, LocalBytes(e)) && |e.name| <= U16_MAX
    ensures ReadLocal(b, start) == Ok(start + |LocalBytes(e)|)
  {
    hide LocalFixed;
    var fixed := LocalFixed(Large(e), e.compression, e.crc, if Large(e) then U32_MAX else |e.body|,
                            if Large(e) then U32_MAX else e.usize, |e.name|, |LocalExtra(e)|);
    LocalFields(Large(e), e.compression, e.crc, if Large(e) then U32_MAX else |e.body|,
                if Large(e) then U32_MAX else e.usize, |e.name|, |LocalExtra(e)|);
    var local := ReadRange(b, start, start + 29);
    forall k | 0 <= k < 30 ensures local[k] == fixed[k] {
      assert b[start + k] == LocalBytes(e)[k];
    }
    assert local == fixed;
  }

  lemma ClipParts(a: Bytes, n: Bytes, x: Bytes, more: Bytes)
    ensures Clip(a + n + x + more, |a|, |a| + |n|) == n
    ensures Clip(a + n + x + more, |a| + |n|, |a| + |n| + |x|) == x
  {}

  function CentralFixedOf(e: Entry, start: nat): Bytes {
    CentralFixed(Large(e) || start > U32_MAX, e.compression, e.crc, Escaped(|e.body|), Escaped(e.usize), |e.name|,
                 |CentralExtra(e, start)|, Escaped(start))
  }

  lemma {:induction false} CentralReads(e: Entry, start: nat, more: Bytes)
    requires WritableEntry(e)
    ensures var h := CentralBytes(e, start) + more;
            && U32At(h, 0) == SIG_CENTRAL && U16At(h, 8) == 0 && U16At(h, 10) == e.compression && U32At(h, 16) == e.crc
            && U32At(h, 20) == Escaped(|e.body|) && U32At(h, 24) == Escaped(e.usize)
            && U16At(h, 28) == |e.name| && U16At(h, 30) == |CentralExtra(e, start)|
            && U16At(h, 32) == 0 && U32At(h, 42) == Escaped(start)
  {
    var h := CentralBytes(e, start) + more;
    var fixed := CentralFixedOf(e, start);
    CentralFields(Large(e) || start > U32_MAX, e.compression, e.crc, Escaped(|e.body|), Escaped(e.usize), |e.name|,
                  |CentralExtra(e, start)|, Escaped(start));
    SameFront(h, fixed);
  }

  lemma SameFront(h: Bytes, fixed: Bytes)
    requires |fixed| == 46 && |h| >= 46 && h[..46] == fixed
    ensures forall k {:trigger h[k]} :: 0 <= k < 46 ==> h[k] == fixed[k]
  {}

  /** What ReadEntry does once the fields of a written entry are known. */
  lemma {:induction false} ParsedEntry(b: Bytes, h: Bytes, e: Entry, start: nat)
    requires ValidName(e.name) && |h| >= 46 && U32At(h, 0) == SIG_CENTRAL && U16At(h, 8) == 0 && U16At(h, 32) == 0
    requires U16At(h, 10) == e.compression && U32At(h, 16) == e.crc
    requires U16At(h, 28) == |e.name| && U16At(h, 30) == |CentralExtra(e, start)|
    requires Clip(h, 46, 46 + |e.name|) == e.name
    requires ApplyExtra(Fields(U32At(h, 24), U32At(h, 20), U32At(h, 42)),
                        Clip(h, 46 + |e.name|, 46 + |e.name| + |CentralExtra(e, start)|), 0)
          == if EntryClash(e, start) then Err(OutOfRange) else Ok(Fields(e.usize, |e.body|, start))
    requires ReadLocal(b, start) == Ok(start + |LocalBytes(e)|)
    ensures var r := ReadEntry(b, h);
            if (e.compression == STORE || e.compression == DEFLATE) && !EntryClash(e, start)
            then r == Ok(Parsed(e.name, Some(IndexFor(e, start)), 46 + |e.name| + |CentralExtra(e, start)|))
            else r.Err?
  {
    hide ApplyExtra, ReadLocal, CentralExtra, LocalBytes, EntryClash, ValidName;
    NotADirectory(e.name);
  }

  lemma {:induction false} NotADirectory(name: Bytes)
    requires ValidName(name)
    ensures name != [] && name[|name| - 1] != SLASH
  {
    if name[|name| - 1] == SLASH {
      LastSegment(name);
    }
  }

  lemma {:induction false} EntryReads(b: Bytes, e: Entry, start: nat, more: Bytes)
    requires WritableEntry(e) && |e.body| <= MAX_SAFE && start <= MAX_SAFE && Holds(b, start, LocalBytes(e))
    ensures var r := ReadEntry(b, CentralBytes(e, start) + more);
            if (e.compression == STORE || e.compression == DEFLATE) && !EntryClash(e, start)
            then r == Ok(Parsed(e.name, Some(IndexFor(e, start)), |CentralBytes(e, start)|))
            else r.Err?
  {
    hide ReadEntry, ReadLocal, ApplyExtra, ValidName;
    CentralReads(e, start, more);
    ClipParts(CentralFixedOf(e, start), e.name, CentralExtra(e, start), more);
    ExtraReads(e, start);
    LocalReads(b, e, start);
    ParsedEntry(b, CentralBytes(e, start) + more, e, start);
  }

  // ---- the whole directory ----

  lemma {:induction false} DirectoryReads(b: Bytes, central: Bytes, cursor: nat, es: seq<Entry>, start: nat)
    requires cursor <= |central| && central[cursor..] == Central(es, start)
    requires Holds(b, start, Locals(es)) && |b| <= MAX_SAFE
    requires forall i :: 0 <= i < |es| ==> WritableEntry(es[i])
    ensures var r := ReadEntries(b, central, cursor, |es|);
            if Readable(es, start) then r == Ok(IndexOf(es, start)) else r.Err?
    decreases |es|
  {
    hide CentralBytes, LocalBytes, ReadEntry, EntryClash, ValidName, ReadEntries;
    if es == [] {
      NoEntries(b, central, cursor);
    } else {
      var e, rest, after := es[0], es[1..], start + SizeOf(es[0]);
      FirstLocal(b, es, start);
      EntryReads(b, e, start, Central(rest, after));
      var next := cursor + |CentralBytes(e, start)|;
      CentralRest(central, cursor, CentralBytes(e, start), Central(rest, after));
      DirectoryReads(b, central, next, rest, after);
      ReadStep(b, central, cursor, |es|);
    }
  }

  lemma NoEntries(b: Bytes, central: Bytes, cursor: nat)
    ensures ReadEntries(b, central, cursor, 0) == Ok(map[])
  {}

  lemma {:induction false} ReadStep(b: Bytes, central: Bytes, cursor: nat, n: nat)
    requires n > 0
    ensures var p := ReadEntry(b, From(central, cursor));
            && (p.Err? ==> ReadEntries(b, central, cursor, n).Err?)
            && (p.Ok? ==>
                  var rest := ReadEntries(b, central, cursor + p.value.length, n - 1);
                  ReadEntries(b, central, cursor, n) == if rest.Ok? then Ok(Listed(p.value) + rest.value) else rest)
  {
    hide ReadEntry, Listed;
  }

  lemma {:induction false} FirstLocal(b: Bytes, es: seq<Entry>, start: nat)
    requires es != [] && Holds(b, start, Locals(es))
    ensures Holds(b, start, LocalBytes(es[0])) && Holds(b, start + SizeOf(es[0]), Locals(es[1..]))
    ensures start + SizeOf(es[0]) <= |b|
  {
    var local, body := LocalBytes(es[0]), es[0].body;
    HoldsSplit(b, start, local + body, Locals(es[1..]));
    HoldsSplit(b, start, local, body);
  }

  lemma {:induction false} CentralRest(central: Bytes, cursor: nat, first: Bytes, rest: Bytes)
    requires cursor <= |central| && central[cursor..] == first + rest
    ensures From(central, cursor) == first + rest
    ensures cursor + |first| <= |central| && central[cursor + |first|..] == rest
  {
    assert central[cursor + |first|..] == central[cursor..][|first|..];
  }

  // ---- finding the directory ----

  lemma {:induction false} TailEnd(b: Bytes, front: Bytes, h: Bytes)
    requires b == front + h && |h| == 22
    ensures var tailStart := Max(0, |b| - EOCD_MAX);
            var tail := ReadRange(b, tailStart, |b| - 1);
            |tail| >= 22 && tailStart + |tail| - 22 == |front| && tail[|tail| - 22..] == h
  {
    var tailStart := Max(0, |b| - EOCD_MAX);
    assert ReadRange(b, tailStart, |b| - 1) == b[tailStart..];
  }

  lemma {:induction false} EndFields(tail: Bytes, h: Bytes)
    requires |tail| >= 22 && |h| == 22 && tail[|tail| - 22..] == h
    ensures var k := |tail| - 22;
            && U32At(tail, k) == U32At(h, 0) && U16At(tail, k + 10) == U16At(h, 10) && U32At(tail, k + 12) == U32At(h, 12)
            && U32At(tail, k + 16) == U32At(h, 16) && U16At(tail, k + 20) == U16At(h, 20)
  {
    var k := |tail| - 22;
    assert forall j :: 0 <= j < 22 ==> tail[k..][j] == tail[k + j];
  }

  lemma {:induction false} EocdFound(b: Bytes, front: Bytes, count: nat, cdSize: nat, cdOffset: nat)
    requires b == front + EocdBytes(count, cdSize, cdOffset)
    requires count <= U16_MAX && cdSize <= U32_MAX && cdOffset <= U32_MAX
    ensures ReadDirectory(b) ==
            if count == U16_MAX || cdSize == U32_MAX || cdOffset == U32_MAX then ReadZip64(b, |front|)
            else Ok(Directory(count, cdSize, cdOffset))
  {
    hide ReadRange, ReadZip64;
    var h := EocdBytes(count, cdSize, cdOffset);
    EocdFields(count, cdSize, cdOffset);
    TailEnd(b, front, h);
    var tail := ReadRange(b, Max(0, |b| - EOCD_MAX), |b| - 1);
    EndFields(tail, h);
    assert EocdAt(tail, |tail| - 22);
  }

  lemma {:induction false} Zip64Found(b: Bytes, front: Bytes, count: nat, cdSize: nat, cdOffset: nat)
    requires |front| == cdOffset + cdSize && |b| <= MAX_SAFE && count <= MAX_SAFE
    requires b == front + Zip64EocdBytes(count, cdSize, cdOffset) + LocatorBytes(|front|) + EocdBytes(U16_MAX, U32_MAX, U32_MAX)
    ensures ReadZip64(b, |front| + 76) == Ok(Directory(count, cdSize, cdOffset))
  {
    hide Zip64EocdBytes, LocatorBytes, EocdBytes, ReadRange;
    var z, l := Zip64EocdBytes(count, cdSize, cdOffset), LocatorBytes(|front|);
    Zip64EocdFields(count, cdSize, cdOffset);
    LocatorFields(|front|);
    var e := EocdBytes(U16_MAX, U32_MAX, U32_MAX);
    RangeOf(front + z, l, e);
    RangeOf(front, z, l + e);
    assert front + z + (l + e) == b;
  }

  lemma RangeOf(a: Bytes, x: Bytes, more: Bytes)
    requires x != []
    ensures ReadRange(a + x + more, |a|, |a| + |x| - 1) == x
  {}

  lemma {:induction false} CentralSize(es: seq<Entry>, start: nat)
    ensures |Central(es, start)| >= 46 * |es|
    decreases |es|
  {
    if es != [] { CentralSize(es[1..], start + SizeOf(es[0])); }
  }

  lemma {:induction false} DirectoryFound(es: seq<Entry>)
    requires |Archive(es)| <= MAX_SAFE
    ensures var d := Directory(|es|, |Central(es, 0)|, |Locals(es)|);
            && (!EocdClash(d.count, d.size, d.offset) ==> ReadDirectory(Archive(es)) == Ok(d))
            && (EocdClash(d.count, d.size, d.offset) && !StrayLocator(es) ==> ReadDirectory(Archive(es)) == Err(LocatorMissing))
            && (EocdClash(d.count, d.size, d.offset) ==> ReadDirectory(Archive(es)) == ReadZip64(Archive(es), d.offset + d.size))
  {
    hide LocalBytes, CentralBytes, Trailer, ReadDirectory, ReadZip64;
    CentralSize(es, 0);
    TrailerFound(Archive(es), |es|, Locals(es), Central(es, 0));
  }

  lemma {:induction false} TrailerFound(b: Bytes, count: nat, locals: Bytes, cd: Bytes)
    requires b == locals + cd + Trailer(count, |cd|, |locals|) && |b| <= MAX_SAFE && |cd| >= 46 * count
    ensures var d := Directory(count, |cd|, |locals|);
            && (!EocdClash(d.count, d.size, d.offset) ==> ReadDirectory(b) == Ok(d))
            && (EocdClash(d.count, d.size, d.offset) && |cd| >= 20 && U32At(cd, |cd| - 20) != SIG_ZIP64_LOCATOR ==>
                ReadDirectory(b) == Err(LocatorMissing))
            && (EocdClash(d.count, d.size, d.offset) ==> ReadDirectory(b) == ReadZip64(b, |locals| + |cd|))
  {
    hide Zip64EocdBytes, LocatorBytes, EocdBytes, ReadDirectory, ReadZip64;
    var front := locals + cd;
    if NeedsZip64(count, |cd|, |locals|) {
      var z, l := Zip64EocdBytes(count, |cd|, |locals|), LocatorBytes(|front|);
      var e := EocdBytes(U16_MAX, U32_MAX, U32_MAX);
      Regroup(front, z, l, e);
      EocdFound(b, front + z + l, U16_MAX, U32_MAX, U32_MAX);
      Zip64Found(b, front, count, |cd|, |locals|);
    } else {
      EocdFound(b, front, count, |cd|, |locals|);
      if EocdClash(count, |cd|, |locals|) && |cd| >= 20 && U32At(cd, |cd| - 20) != SIG_ZIP64_LOCATOR {
        NoLocator(b, locals, cd, EocdBytes(count, |cd|, |locals|));
      }
    }
  }

  lemma Regroup(a: Bytes, b: Bytes, c: Bytes, d: Bytes)
    ensures a + (b + c + d) == a + b + c + d
  {}

  lemma {:induction false} NoLocator(b: Bytes, locals: Bytes, cd: Bytes, e: Bytes)
    requires b == locals + cd + e && |cd| >= 20 && U32At(cd, |cd| - 20) != SIG_ZIP64_LOCATOR && |e| == 22
    ensures ReadZip64(b, |locals + cd|) == Err(LocatorMissing)
  {
    var at := |locals + cd|;
    var locator := ReadRange(b, at - 20, at - 1);
    assert locator == cd[|cd| - 20..];
  }

  // ---- the theorems ----

  lemma RangeIsCentral(es: seq<Entry>)
    ensures ReadRange(Archive(es), |Locals(es)|, |Locals(es)| + |Central(es, 0)| - 1) == Central(es, 0)
  {}

  lemma LocalsHeld(es: seq<Entry>)
    ensures Holds(Archive(es), 0, Locals(es))
  {}

  /**
    Rebuilding the index of a written bundle gives back the writer's own index whenever no
    value clashes with an escape; and when one does it fails, unless the end record is the
    one that clashes and the directory's last bytes pass for a ZIP64 locator. Then the reader
    looks for the directory where those bytes point.
  */
  lemma {:induction false} RoundTrip(es: seq<Entry>)
    requires Writable(es)
    ensures Exact(es) ==> RebuildIndex(Archive(es)) == Ok(IndexOf(es, 0))
    ensures !EocdClash(|es|, |Central(es, 0)|, |Locals(es)|) || !StrayLocator(es) ==>
              if Exact(es) then RebuildIndex(Archive(es)) == Ok(IndexOf(es, 0)) else RebuildIndex(Archive(es)).Err?
    ensures EocdClash(|es|, |Central(es, 0)|, |Locals(es)|) ==>
              ReadDirectory(Archive(es)) == ReadZip64(Archive(es), |Locals(es)| + |Central(es, 0)|)
  {
    hide Archive, Central, Locals, ReadDirectory, ReadZip64, ReadRange, ReadEntries, Readable, StrayLocator, IndexOf, EocdClash;
    var b := Archive(es);
    var d := Directory(|es|, |Central(es, 0)|, |Locals(es)|);
    DirectoryFound(es);
    if !EocdClash(d.count, d.size, d.offset) {
      RangeIsCentral(es);
      LocalsHeld(es);
      assert Central(es, 0)[0..] == Central(es, 0);
      DirectoryReads(b, Central(es, 0), 0, es, 0);
    }
  }

  /**
    A bundle of exactly 65,535 files: the count is written as it is and read as an escape, so the bundle is written
    without complaint and cannot be read again.
  */
  lemma {:induction false} FullCountIsRefused(es: seq<Entry>)
    requires Writable(es) && |es| == U16_MAX && |Central(es, 0)| <= U32_MAX && |Locals(es)| <= U32_MAX && !StrayLocator(es)
    ensures !Exact(es) && RebuildIndex(Archive(es)).Err?
  {
    hide RebuildIndex, Archive, Central, Locals, Readable, StrayLocator, Writable;
    RoundTrip(es);
  }

  lemma {:induction false} OneByteName(c: Byte)
    requires c != SLASH
    ensures Segments([c]) == [[c]]
  {
    var rest: seq<Bytes> := Segments([c][1..]);
    assert rest == [[]];
    assert [c] + rest[0] == [c] && rest[1..] == [];
  }

  const EMPTY_FILE := Entry([0x61], STORE, 0, 0, [])

  /** Empty files are small enough, and none of their records looks like a locator. */
  lemma {:induction false} EmptyFiles(es: seq<Entry>, start: nat)
    requires start + 31 * |es| <= U32_MAX && forall i :: 0 <= i < |es| ==> es[i] == EMPTY_FILE
    ensures |Locals(es)| == 31 * |es| && |Central(es, start)| == 47 * |es|
    ensures es != [] ==> Central(es, start)[47 * |es| - 20] == 0
    decreases |es|
  {
    hide LocalBytes, CentralBytes, Locals, Central;
    FirstEmpty(es, start);
    if es != [] {
      var rest := es[1..];
      EmptyFiles(rest, start + 31);
      EmptyRecord(start);
      LastByte(CentralBytes(EMPTY_FILE, start), Central(rest, start + 31), |rest|);
    }
  }

  lemma {:induction false} FirstEmpty(es: seq<Entry>, start: nat)
    requires start <= U32_MAX && (es != [] ==> es[0] == EMPTY_FILE)
    ensures es == [] ==> Locals(es) == [] && Central(es, start) == []
    ensures es != [] ==>
              && Locals(es) == LocalBytes(EMPTY_FILE) + Locals(es[1..])
              && Central(es, start) == CentralBytes(EMPTY_FILE, start) + Central(es[1..], start + 31)
  {
    hide LocalBytes, CentralBytes;
    EmptyRecord(start);
  }

  lemma {:induction false} LastByte(first: Bytes, more: Bytes, n: nat)
    requires |first| == 47 && |more| == 47 * n && first[27] == 0 && (n > 0 ==> more[47 * n - 20] == 0)
    ensures |first + more| == 47 * (n + 1) && (first + more)[47 * (n + 1) - 20] == 0
  {
    if n > 0 { assert (first + more)[47 * (n + 1) - 20] == more[47 * n - 20]; }
  }

  lemma {:induction false} EmptyRecord(start: nat)
    requires start <= U32_MAX
    ensures |LocalBytes(EMPTY_FILE)| == 31 && |CentralBytes(EMPTY_FILE, start)| == 47 && CentralBytes(EMPTY_FILE, start)[27] == 0
  {
    assert CentralValues(EMPTY_FILE, start) == [];
    assert Escaped(0) == 0 && Escaped(start) == start;
    CentralFields(false, STORE, 0, 0, 0, 1, 0, start);
    var h := CentralFixed(false, STORE, 0, 0, 0, 1, 0, start);
    assert U32At(h, 24) == 0 && h[27] == 0;
    assert CentralBytes(EMPTY_FILE, start)[27] == h[27];
  }

  lemma {:induction false} PlainName()
    ensures WritableEntry(EMPTY_FILE)
  {
    hide Segments;
    OneByteName(0x61);
    var name := EMPTY_FILE.name;
    assert name == [0x61] && Segments(name) == [name];
    assert name[0] != SLASH && name[0] != BACKSLASH;
  }

  /** 65,535 empty files are such a bundle. */
  lemma {:induction false} FullCountHappens(es: seq<Entry>)
    requires |es| == U16_MAX && forall i :: 0 <= i < |es| ==> es[i] == EMPTY_FILE
    ensures Writable(es) && !Exact(es) && RebuildIndex(Archive(es)).Err?
  {
    hide RebuildIndex, Readable, Locals, Central, LocalBytes, CentralBytes, Zip64EocdBytes, LocatorBytes, EocdBytes, Segments;
    EmptyFiles(es, 0);
    PlainName();
    var cd := Central(es, 0);
    assert cd[|cd| - 20] == 0 && U32At(cd, |cd| - 20) % 256 == 0;
    FullCountIsRefused(es);
  }

  // ---- the stored contents ----

  lemma {:induction false} IndexNames(es: seq<Entry>, start: nat, name: Bytes)
    requires name in IndexOf(es, start)
    ensures exists i :: 0 <= i < |es| && es[i].name == name
    decreases |es|
  {
    if es[0].name != name {
      IndexNames(es[1..], start + SizeOf(es[0]), name);
      var i :| 0 <= i < |es[1..]| && es[1..][i].name == name;
      assert es[i + 1].name == name;
    }
  }

  predicate LastOfItsName(es: seq<Entry>, i: nat) {
    i < |es| && forall j :: i < j < |es| ==> es[j].name != es[i].name
  }

  /** What the index says of the last entry of a name: its own sizes and checksum, and where its body stands. */
  lemma {:induction false} IndexedBody(b: Bytes, es: seq<Entry>, start: nat, i: nat)
    requires Holds(b, start, Locals(es)) && LastOfItsName(es, i)
    ensures es[i].name in IndexOf(es, start)
    ensures var ix := IndexOf(es, start)[es[i].name];
            && ix.csize == |es[i].body| && ix.usize == es[i].usize
            && ix.compression == es[i].compression && ix.crc == es[i].crc
            && ReadRange(b, ix.offset, ix.offset + ix.csize - 1) == es[i].body
    decreases |es|
  {
    hide LocalBytes, LocalExtra, Holds;
    var e, rest := es[0], es[1..];
    FirstLocal(b, es, start);
    if i == 0 {
      if e.name in IndexOf(rest, start + SizeOf(e)) {
        IndexNames(rest, start + SizeOf(e), e.name);
      }
      BodyHeld(b, e, start, Locals(rest));
    } else {
      IndexedBody(b, rest, start + SizeOf(e), i - 1);
    }
  }

  lemma {:induction false} BodyHeld(b: Bytes, e: Entry, start: nat, more: Bytes)
    requires Holds(b, start, LocalBytes(e) + e.body + more)
    ensures var ix := IndexFor(e, start); ReadRange(b, ix.offset, ix.offset + ix.csize - 1) == e.body
  {
    HoldsSplit(b, start, LocalBytes(e) + e.body, more);
    HoldsSplit(b, start, LocalBytes(e), e.body);
    var at := start + |LocalBytes(e)|;
    forall k | 0 <= k < |e.body| ensures b[at..at + |e.body|][k] == e.body[k] {
      assert b[at + k] == e.body[k];
    }
  }

  /** Reading a bundle back: every indexed range of the rebuilt index yields the body that was stored under that name. */
  lemma {:induction false} StoredBodiesReadBack(es: seq<Entry>, i: nat)
    requires Writable(es) && Exact(es) && LastOfItsName(es, i)
    ensures var index := RebuildIndex(Archive(es));
            && index.Ok? && es[i].name in index.value
            && ReadEntryBody(Archive(es), index.value[es[i].name]) == es[i].body
  {
    hide Archive, Locals, Central, IndexOf, Writable, Exact, EocdClash, StrayLocator, RebuildIndex, LastOfItsName;
    RoundTrip(es);
    LocalsHeld(es);
    IndexedBody(Archive(es), es, 0, i);
  }

  function ReadEntryBody(b: Bytes, ix: IndexEntry): Bytes {
    ReadRange(b, ix.offset, ix.offset + ix.csize - 1)
  }

  /** The entry a rewrite carries over for a name it keeps: metadata from the index, the stored bytes as they are. */
  function CarriedOver(b: Bytes, index: Index, name: Bytes): Entry
    requires name in index
  {
    var ix := index[name];
    Entry(name, ix.compression, ix.crc, ix.usize, ReadEntryBody(b, ix))
  }

  lemma {:induction false} CarriedIs(es: seq<Entry>, i: nat)
    requires LastOfItsName(es, i)
    ensures es[i].name in IndexOf(es, 0) && CarriedOver(Archive(es), IndexOf(es, 0), es[i].name) == es[i]
  {
    hide Archive, Locals, IndexOf, LastOfItsName;
    LocalsHeld(es);
    IndexedBody(Archive(es), es, 0, i);
  }

  /** The last entry of an indexed name. */
  lemma {:induction false} LastNamed(es: seq<Entry>, name: Bytes) returns (k: nat)
    requires exists i :: 0 <= i < |es| && es[i].name == name
    ensures LastOfItsName(es, k) && es[k].name == name
  {
    k := |es| - 1;
    while es[k].name != name
      invariant k < |es| && forall j :: k < j < |es| ==> es[j].name != name
      decreases k
    {
      k := k - 1;
    }
  }

  const PTRUN: Bytes := [0x70, 0x74, 0x72, 0x75, 0x6e, 0x2e, 0x6a, 0x73, 0x6f, 0x6e]

  /** The names a rewrite keeps, each once, in whatever order sorting gives them. */
  ghost predicate KeptNames(names: seq<Bytes>, index: Index, keep: Bytes -> bool) {
    && (forall i, j :: 0 <= i < j < |names| ==> names[i] != names[j])
    && (forall name :: name in names <==> name in index && name != PTRUN && keep(name))
  }

  /** The entries of a rewritten bundle: its new description, then every kept entry carried over. */
  function Rewritten(b: Bytes, index: Index, names: seq<Bytes>, description: Entry): (r: seq<Entry>)
    requires forall i :: 0 <= i < |names| ==> names[i] in index
    ensures |r| == |names| + 1
  {
    [description] + seq(|names|, i requires 0 <= i < |names| => CarriedOver(b, index, names[i]))
  }

  /** The entry is found in the bundle by its name, with its sizes, checksum and stored bytes. */
  ghost predicate FoundIn(es: seq<Entry>, e: Entry) {
    e.name in IndexOf(es, 0) && CarriedOver(Archive(es), IndexOf(es, 0), e.name) == e
  }

  ghost predicate LastEntry(es: seq<Entry>, e: Entry) {
    exists k: nat :: LastOfItsName(es, k) && es[k] == e
  }

  /**
    Rewriting a bundle: its entries are the new description and exactly the kept entries as they were first written;
    and when the rewritten bundle reads back, its index has their names, and each entry under its own.
  */
  lemma {:induction false} RewriteKeepsEntries(es: seq<Entry>, keep: Bytes -> bool, names: seq<Bytes>, description: Entry)
    requires Writable(es) && Exact(es) && KeptNames(names, IndexOf(es, 0), keep) && description.name == PTRUN
    ensures RebuildIndex(Archive(es)) == Ok(IndexOf(es, 0))
    ensures var out := Rewritten(Archive(es), IndexOf(es, 0), names, description);
            && out[0] == description
            && (forall e :: e in out[1..] <==> LastEntry(es, e) && e.name != PTRUN && keep(e.name))
            && (Writable(out) && Exact(out) ==>
                  && RebuildIndex(Archive(out)) == Ok(IndexOf(out, 0))
                  && (forall name :: name in IndexOf(out, 0) <==> name == PTRUN || name in names)
                  && (forall e :: e in out ==> FoundIn(out, e)))
  {
    hide Archive, IndexOf, Writable, Exact, RebuildIndex, CarriedOver, FoundIn, LastEntry, KeptNames, Rewritten;
    RoundTrip(es);
    KeptAreDistinct(names, IndexOf(es, 0), keep);
    RewrittenEntries(es, keep, names, description);
    var out := Rewritten(Archive(es), IndexOf(es, 0), names, description);
    RewrittenNames(out, names);
    if Writable(out) && Exact(out) { RoundTrip(out); }
  }

  lemma KeptAreDistinct(names: seq<Bytes>, index: Index, keep: Bytes -> bool)
    requires KeptNames(names, index, keep)
    ensures PTRUN !in names && forall i, j :: 0 <= i < j < |names| ==> names[i] != names[j]
    ensures forall i :: 0 <= i < |names| ==> names[i] in index
  {}

  lemma {:induction false} RewrittenEntries(es: seq<Entry>, keep: Bytes -> bool, names: seq<Bytes>, description: Entry)
    requires KeptNames(names, IndexOf(es, 0), keep)
    ensures var out := Rewritten(Archive(es), IndexOf(es, 0), names, description);
            && out[0] == description && |out| == |names| + 1
            && (forall i: nat :: i < |names| ==> out[i + 1].name == names[i])
            && (forall e :: e in out[1..] <==> LastEntry(es, e) && e.name != PTRUN && keep(e.name))
  {
    hide Archive, IndexOf, CarriedOver;
    var out := Rewritten(Archive(es), IndexOf(es, 0), names, description);
    forall i: nat | i < |names| ensures out[i + 1].name == names[i] && LastEntry(es, out[i + 1]) {
      assert names[i] in names;
      IndexNames(es, 0, names[i]);
      var k := LastNamed(es, names[i]);
      CarriedIs(es, k);
    }
    forall e | LastEntry(es, e) && e.name != PTRUN && keep(e.name) ensures e in out[1..] {
      var k: nat :| LastOfItsName(es, k) && es[k] == e;
      CarriedIs(es, k);
      var i :| 0 <= i < |names| && names[i] == e.name;
      var tail := out[1..];
      assert |tail| == |names| && tail[i] == CarriedOver(Archive(es), IndexOf(es, 0), names[i]);
    }
    forall e | e in out[1..] ensures LastEntry(es, e) && e.name != PTRUN && keep(e.name) {
      var i :| 0 <= i < |out[1..]| && out[1..][i] == e;
      assert out[i + 1] == e && names[i] in names;
    }
  }

  /** The rewritten bundle's names are all different, so its index has each entry under its own name. */
  lemma {:induction false} RewrittenNames(out: seq<Entry>, names: seq<Bytes>)
    requires |out| == |names| + 1 && out[0].name == PTRUN && forall i: nat :: i < |names| ==> out[i + 1].name == names[i]
    requires PTRUN !in names && forall i, j :: 0 <= i < j < |names| ==> names[i] != names[j]
    ensures forall name :: name in IndexOf(out, 0) <==> name == PTRUN || name in names
    ensures forall e :: e in out ==> FoundIn(out, e)
  {
    hide Archive, IndexOf, CarriedOver;
    forall i: nat | i < |out| ensures FoundIn(out, out[i]) {
      if i > 0 { assert out[(i - 1) + 1].name == names[i - 1] && names[i - 1] in names; }
      forall j | i < j < |out| ensures out[j].name != out[i].name { assert out[(j - 1) + 1].name == names[j - 1]; }
      CarriedIs(out, i);
    }
    forall name ensures name in IndexOf(out, 0) <==> name == PTRUN || name in names {
      if name in IndexOf(out, 0) {
        IndexNames(out, 0, name);
        var i :| 0 <= i < |out| && out[i].name == name;
        if i > 0 { assert out[(i - 1) + 1].name == names[i - 1]; }
      }
      if name in names {
        var i: nat :| i < |names| && names[i] == name;
        assert FoundIn(out, out[i + 1]);
      }
      if name == PTRUN { assert FoundIn(out, out[0]); }
    }
  }
}
