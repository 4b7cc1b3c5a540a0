/**
  The writer and the reader as the source runs them: headers filled into buffers at their
  offsets, and loops over a moving cursor. Each is proved to compute what ZipArchive defines,
  so the theorems of ZipRoundTrip are about these two.
*/
module Zip {
  import opened Common
  import opened ZipFormat
  import opened ZipRecords
  import opened ZipArchive

  // ---- filling a buffer ----

  method Write2(buf: array<Byte>, value: nat, offset: nat)
    requires offset + 2 <= buf.Length
    modifies buf
    ensures buf[..offset + 2] == old(buf[..offset]) + LE2(value)
    ensures forall k :: offset + 2 <= k < buf.Length ==> buf[k] == old(buf[k])
  {
    buf[offset] := value % 256;
    buf[offset + 1] := value / 256 % 256;
  }

  method Write4(buf: array<Byte>, value: nat, offset: nat)
    requires offset + 4 <= buf.Length
    modifies buf
    ensures buf[..offset + 4] == old(buf[..offset]) + LE4(value)
    ensures forall k :: offset + 4 <= k < buf.Length ==> buf[k] == old(buf[k])
  {
    Write2(buf, value, offset);
    Write2(buf, value / 0x1_0000, offset + 2);
  }

  method Write8(buf: array<Byte>, value: nat, offset: nat)
    requires offset + 8 <= buf.Length
    modifies buf
    ensures buf[..offset + 8] == old(buf[..offset]) + LE8(value)
    ensures forall k :: offset + 8 <= k < buf.Length ==> buf[k] == old(buf[k])
  {
    Write4(buf, value, offset);
    Write4(buf, value / 0x1_0000_0000, offset + 4);
  }

  method Copy(buf: array<Byte>, bytes: Bytes, offset: nat)
    requires offset + |bytes| <= buf.Length
    modifies buf
    ensures buf[..offset + |bytes|] == old(buf[..offset]) + bytes
    ensures forall k :: offset + |bytes| <= k < buf.Length ==> buf[k] == old(buf[k])
  {
    for i := 0 to |bytes|
      invariant buf[..offset + i] == old(buf[..offset]) + bytes[..i]
      invariant forall k :: offset + i <= k < buf.Length ==> buf[k] == old(buf[k])
    {
      buf[offset + i] := bytes[i];
    }
  }

  method Zip64Extra(values: seq<nat>) returns (extra: Bytes)
    ensures extra == Extra64(values)
  {
    hide LE2, LE8;
    if |values| == 0 {
      return [];
    }
    var buf := new Byte[4 + 8 * |values|](_ => 0);
    Write2(buf, EXTRA_ZIP64, 0);
    Write2(buf, 8 * |values|, 2);
    for i := 0 to |values|
      invariant buf[..4 + 8 * i] == LE2(EXTRA_ZIP64) + LE2(8 * |values|) + Words(values[..i])
    {
      Write8(buf, values[i], 4 + 8 * i);
      WordsSnoc(values, i);
    }
    assert values[..|values|] == values;
    assert buf[..] == buf[..4 + 8 * |values|];
    return buf[..];
  }

  lemma {:induction false} WordsSnoc(values: seq<nat>, i: nat)
    requires i < |values|
    ensures Words(values[..i + 1]) == Words(values[..i]) + LE8(values[i])
  {
    if i == 0 {
      assert values[..1] == [values[0]] && values[..0] == [];
      assert Words([values[0]]) == LE8(values[0]) + Words([]);
    } else {
      WordsSnoc(values[1..], i - 1);
      assert values[..i + 1][1..] == values[1..][..i] && values[..i][1..] == values[1..][..i - 1];
    }
  }

  method FillLocal(buf: array<Byte>, zip64: bool, compression: nat, crc: nat, csize: nat, usize: nat, n: nat, x: nat)
    requires buf.Length >= 30
    modifies buf
    ensures buf[..30] == LocalFixed(zip64, compression, crc, csize, usize, n, x)
  {
    hide LE2, LE4;
    Write4(buf, SIG_LOCAL, 0);
    Write2(buf, if zip64 then 45 else 20, 4);
    Write2(buf, 0, 6);
    Write2(buf, compression, 8);
    Write2(buf, 0, 10);
    Write2(buf, 0, 12);
    Write4(buf, crc, 14);
    Write4(buf, csize, 18);
    Write4(buf, usize, 22);
    Write2(buf, n, 26);
    Write2(buf, x, 28);
  }

  method LocalHeader(e: Entry) returns (header: Bytes)
    ensures header == LocalBytes(e)
  {
    hide LocalFixed, Extra64;
    var zip64 := e.usize > U32_MAX || |e.body| > U32_MAX;
    var extra := Zip64Extra(if zip64 then [e.usize, |e.body|] else []);
    var buf := new Byte[30 + |e.name| + |extra|](_ => 0);
    FillLocal(buf, zip64, e.compression, e.crc, if zip64 then U32_MAX else |e.body|,
              if zip64 then U32_MAX else e.usize, |e.name|, |extra|);
    Copy(buf, e.name, 30);
    Copy(buf, extra, 30 + |e.name|);
    assert buf[..] == buf[..30 + |e.name| + |extra|];
    return buf[..];
  }

  method FillCentralFront(buf: array<Byte>, version: nat, compression: nat, crc: nat)
    requires buf.Length >= 20
    modifies buf
    ensures buf[..20] == LE4(SIG_CENTRAL) + LE2(version) + LE2(version) + LE2(0) + LE2(compression) + LE2(0) + LE2(0) + LE4(crc)
  {
    hide LE2, LE4;
    Write4(buf, SIG_CENTRAL, 0);
    Write2(buf, version, 4);
    Write2(buf, version, 6);
    Write2(buf, 0, 8);
    Write2(buf, compression, 10);
    Write2(buf, 0, 12);
    Write2(buf, 0, 14);
    Write4(buf, crc, 16);
  }

  method FillCentral(buf: array<Byte>, zip64: bool, compression: nat, crc: nat, csize: nat, usize: nat, n: nat, x: nat,
                     offset: nat)
    requires buf.Length >= 46
    modifies buf
    ensures buf[..46] == CentralFixed(zip64, compression, crc, csize, usize, n, x, offset)
  {
    hide LE2, LE4;
    FillCentralFront(buf, if zip64 then 45 else 20, compression, crc);
    Write4(buf, csize, 20);
    Write4(buf, usize, 24);
    Write2(buf, n, 28);
    Write2(buf, x, 30);
    Write2(buf, 0, 32);
    Write2(buf, 0, 34);
    Write2(buf, 0, 36);
    Write4(buf, 0, 38);
    Write4(buf, offset, 42);
  }

  method CentralHeader(e: Entry, localOffset: nat) returns (header: Bytes)
    ensures header == CentralBytes(e, localOffset)
  {
    hide CentralFixed, Extra64;
    var size64 := e.usize > U32_MAX || |e.body| > U32_MAX;
    var offset64 := localOffset > U32_MAX;
    var extra := Zip64Extra((if e.usize > U32_MAX then [e.usize] else [])
                            + (if |e.body| > U32_MAX then [|e.body|] else [])
                            + (if offset64 then [localOffset] else []));
    var buf := new Byte[46 + |e.name| + |extra|](_ => 0);
    FillCentral(buf, size64 || offset64, e.compression, e.crc, if |e.body| > U32_MAX then U32_MAX else |e.body|,
                if e.usize > U32_MAX then U32_MAX else e.usize, |e.name|, |extra|,
                if offset64 then U32_MAX else localOffset);
    Copy(buf, e.name, 46);
    Copy(buf, extra, 46 + |e.name|);
    assert buf[..] == buf[..46 + |e.name| + |extra|];
    return buf[..];
  }

  method Eocd(count: nat, cdSize: nat, cdOffset: nat, zip64: bool) returns (record: Bytes)
    ensures record == if zip64 then EocdBytes(U16_MAX, U32_MAX, U32_MAX) else EocdBytes(count, cdSize, cdOffset)
  {
    var buf := new Byte[22](_ => 0);
    if zip64 {
      FillEocd(buf, U16_MAX, U32_MAX, U32_MAX);
    } else {
      FillEocd(buf, count, cdSize, cdOffset);
    }
    return buf[..];
  }

  method FillEocd(buf: array<Byte>, count: nat, cdSize: nat, cdOffset: nat)
    requires buf.Length == 22
    modifies buf
    ensures buf[..] == EocdBytes(count, cdSize, cdOffset)
  {
    hide LE2, LE4;
    Write4(buf, SIG_EOCD, 0);
    Write2(buf, 0, 4);
    Write2(buf, 0, 6);
    Write2(buf, count, 8);
    Write2(buf, count, 10);
    Write4(buf, cdSize, 12);
    Write4(buf, cdOffset, 16);
    Write2(buf, 0, 20);
    assert buf[..] == buf[..22];
  }

  method Zip64Eocd(count: nat, cdSize: nat, cdOffset: nat) returns (record: Bytes)
    ensures record == Zip64EocdBytes(count, cdSize, cdOffset)
  {
    hide LE2, LE4, LE8;
    var buf := new Byte[56](_ => 0);
    Write4(buf, SIG_ZIP64_EOCD, 0);
    Write8(buf, 44, 4);
    Write2(buf, 45, 12);
    Write2(buf, 45, 14);
    Write4(buf, 0, 16);
    Write4(buf, 0, 20);
    Write8(buf, count, 24);
    Write8(buf, count, 32);
    Write8(buf, cdSize, 40);
    Write8(buf, cdOffset, 48);
    assert buf[..] == buf[..56];
    return buf[..];
  }

  method Zip64Locator(offset: nat) returns (record: Bytes)
    ensures record == LocatorBytes(offset)
  {
    var buf := new Byte[20](_ => 0);
    Write4(buf, SIG_ZIP64_LOCATOR, 0);
    Write4(buf, 0, 4);
    Write8(buf, offset, 8);
    Write4(buf, 1, 16);
    assert buf[..] == buf[..20];
    return buf[..];
  }

  // ---- the writer ----

  function Flatten(chunks: seq<Bytes>): Bytes {
    if chunks == [] then [] else Flatten(chunks[..|chunks| - 1]) + chunks[|chunks| - 1]
  }

  lemma {:induction false} FlattenSnoc(chunks: seq<Bytes>, c: Bytes)
    ensures Flatten(chunks + [c]) == Flatten(chunks) + c
  {
    assert (chunks + [c])[..|chunks|] == chunks;
  }

  lemma PrefixTail(es: seq<Entry>, i: nat)
    requires 0 < i <= |es|
    ensures es[..i] != [] && es[..i][0] == es[0] && es[..i][1..] == es[1..][..i - 1]
  {}

  lemma {:induction false} LocalsCons(es: seq<Entry>, i: nat)
    requires 0 < i <= |es|
    ensures Locals(es[..i]) == LocalBytes(es[0]) + es[0].body + Locals(es[1..][..i - 1])
    ensures |Locals(es[..i])| == SizeOf(es[0]) + |Locals(es[1..][..i - 1])|
  {
    hide LocalBytes;
    PrefixTail(es, i);
  }

  lemma {:induction false} LocalsSnoc(es: seq<Entry>, i: nat)
    requires i < |es|
    ensures Locals(es[..i + 1]) == Locals(es[..i]) + (LocalBytes(es[i]) + es[i].body)
  {
    hide LocalBytes;
    LocalsCons(es, i + 1);
    if i == 0 {
      assert es[..0] == [] == es[1..][..0];
    } else {
      LocalsSnoc(es[1..], i - 1);
      LocalsCons(es, i);
    }
  }

  lemma {:induction false} CentralCons(es: seq<Entry>, i: nat, start: nat)
    requires 0 < i <= |es|
    ensures Central(es[..i], start) == CentralBytes(es[0], start) + Central(es[1..][..i - 1], start + SizeOf(es[0]))
  {
    hide CentralBytes, SizeOf;
    PrefixTail(es, i);
  }

  lemma {:induction false} CentralSnoc(es: seq<Entry>, i: nat, start: nat)
    requires i < |es|
    ensures Central(es[..i + 1], start) == Central(es[..i], start) + CentralBytes(es[i], start + |Locals(es[..i])|)
    decreases |es|
  {
    hide LocalBytes, CentralBytes, Locals, SizeOf, Central;
    CentralCons(es, i + 1, start);
    if i == 0 {
      EmptyLayout(es);
      NoCentral(es[1..], start + SizeOf(es[0]));
      NoCentral(es, start);
      Nothing(CentralBytes(es[0], start));
    } else {
      var after := start + SizeOf(es[0]);
      CentralSnoc(es[1..], i - 1, after);
      CentralCons(es, i, start);
      LocalsCons(es, i);
      assert start + |Locals(es[..i])| == after + |Locals(es[1..][..i - 1])|;
      Assoc(CentralBytes(es[0], start), Central(es[1..][..i - 1], after),
            CentralBytes(es[i], after + |Locals(es[1..][..i - 1])|));
    }
  }

  lemma Assoc(a: Bytes, b: Bytes, c: Bytes)
    ensures a + (b + c) == a + b + c
  {}

  lemma Nothing(a: Bytes)
    ensures a + [] == a == [] + a
  {}

  lemma NoCentral(es: seq<Entry>, start: nat)
    ensures Central(es[..0], start) == [] && IndexOf(es[..0], start) == map[]
  {}

  lemma {:induction false} IndexCons(es: seq<Entry>, i: nat, start: nat)
    requires 0 < i <= |es|
    ensures IndexOf(es[..i], start) == map[es[0].name := IndexFor(es[0], start)] + IndexOf(es[1..][..i - 1], start + SizeOf(es[0]))
  {
    hide IndexFor, SizeOf;
    PrefixTail(es, i);
  }

  lemma {:induction false} IndexSnoc(es: seq<Entry>, i: nat, start: nat)
    requires i < |es|
    ensures IndexOf(es[..i + 1], start) == IndexOf(es[..i], start)[es[i].name := IndexFor(es[i], start + |Locals(es[..i])|)]
    decreases |es|
  {
    hide LocalBytes, Locals, SizeOf, IndexFor, IndexOf;
    IndexCons(es, i + 1, start);
    EmptyLayout(es);
    if i == 0 {
      NoCentral(es[1..], start + SizeOf(es[0]));
      NoCentral(es, start);
    } else {
      IndexSnoc(es[1..], i - 1, start + SizeOf(es[0]));
      IndexCons(es, i, start);
      LocalsCons(es, i);
    }
  }

  datatype Layout = Layout(chunks: seq<Bytes>, central: seq<Bytes>, index: Index)

  /** The layout after the first i entries, and where its cursor stands. */
  ghost predicate LaidOut(es: seq<Entry>, i: nat, l: Layout, cursor: nat)
    requires i <= |es|
  {
    && Flatten(l.chunks) == Locals(es[..i]) && cursor == |Locals(es[..i])|
    && Flatten(l.central) == Central(es[..i], 0) && l.index == IndexOf(es[..i], 0)
  }

  lemma {:induction false} OneMore(es: seq<Entry>, i: nat, l: Layout, cursor: nat)
    requires i < |es| && LaidOut(es, i, l, cursor)
    ensures LaidOut(es, i + 1, Layout(l.chunks + [LocalBytes(es[i]) + es[i].body], l.central + [CentralBytes(es[i], cursor)],
                                      l.index[es[i].name := IndexFor(es[i], cursor)]),
                    cursor + |LocalBytes(es[i])| + |es[i].body|)
  {
    hide LocalBytes, CentralBytes, Locals, Central, IndexOf, IndexFor, Flatten;
    FlattenSnoc(l.chunks, LocalBytes(es[i]) + es[i].body);
    LocalsSnoc(es, i);
    FlattenSnoc(l.central, CentralBytes(es[i], cursor));
    CentralSnoc(es, i, 0);
    IndexSnoc(es, i, 0);
  }

  /** Local records and bodies, central directory records, and the index, over one moving cursor. */
  method LayOut(es: seq<Entry>) returns (r: Result<Layout, Error>)
    ensures r.Ok? <==> forall i :: 0 <= i < |es| ==> WritableEntry(es[i])
    ensures r.Ok? ==> && Flatten(r.value.chunks) == Locals(es) && Flatten(r.value.central) == Central(es, 0)
                      && r.value.index == IndexOf(es, 0)
  {
    hide LocalBytes, CentralBytes, ValidName, LaidOut;
    var chunks: seq<Bytes>, central: seq<Bytes>, index: Index := [], [], map[];
    var cursor: nat := 0;
    NothingLaidOut(es);
    for i := 0 to |es|
      invariant forall j :: 0 <= j < i ==> WritableEntry(es[j])
      invariant LaidOut(es, i, Layout(chunks, central, index), cursor)
    {
      var e := es[i];
      if !WritableEntry(e) {
        return Err(if ValidName(e.name) then OutOfRange else BadName);
      }
      var localOffset := cursor;
      var local := LocalHeader(e);
      OneMore(es, i, Layout(chunks, central, index), cursor);
      chunks := chunks + [local + e.body];
      cursor := cursor + |local| + |e.body|;
      index := index[e.name := IndexEntry(localOffset + |local|, |e.body|, e.usize, e.compression, e.crc)];
      var header := CentralHeader(e, localOffset);
      central := central + [header];
    }
    AllLaidOut(es, Layout(chunks, central, index), cursor);
    return Ok(Layout(chunks, central, index));
  }

  /** Lay out a bundle and its index, or refuse it for the first thing its headers cannot carry. */
  method BuildZip(es: seq<Entry>) returns (r: Result<(Bytes, Index), Error>)
    ensures r.Ok? <==> Writable(es)
    ensures r.Ok? ==> r.value == (Archive(es), IndexOf(es, 0))
  {
    hide WritableEntry, Locals, Central, IndexOf, Trailer;
    var layout := LayOut(es);
    if layout.Err? {
      return Err(layout.error);
    }
    var chunks, cd := layout.value.chunks, Flatten(layout.value.central);
    var cdOffset := |Flatten(chunks)|;
    FlattenSnoc(chunks, cd);
    chunks := chunks + [cd];
    var trailer := WriteTrailer(|es|, |cd|, cdOffset);
    FlattenSnoc(chunks, trailer);
    chunks := chunks + [trailer];
    var buffer := Flatten(chunks);
    if |buffer| > MAX_SAFE {
      return Err(Unsafe);
    }
    return Ok((buffer, layout.value.index));
  }

  lemma {:induction false} NothingLaidOut(es: seq<Entry>)
    ensures LaidOut(es, 0, Layout([], [], map[]), 0)
  {
    EmptyLayout(es);
  }

  lemma {:induction false} AllLaidOut(es: seq<Entry>, l: Layout, cursor: nat)
    requires LaidOut(es, |es|, l, cursor)
    ensures Flatten(l.chunks) == Locals(es) && Flatten(l.central) == Central(es, 0) && l.index == IndexOf(es, 0)
  {
    hide Locals, Central, IndexOf, Flatten;
    assert es[..|es|] == es;
  }

  lemma EmptyLayout(es: seq<Entry>)
    ensures Flatten([]) == Locals(es[..0]) == [] && Central(es[..0], 0) == [] && IndexOf(es[..0], 0) == map[]
  {}

  method WriteTrailer(count: nat, cdSize: nat, cdOffset: nat) returns (trailer: Bytes)
    ensures trailer == Trailer(count, cdSize, cdOffset)
  {
    var needsZip64 := count > U16_MAX || cdSize > U32_MAX || cdOffset > U32_MAX;
    var end := Eocd(count, cdSize, cdOffset, needsZip64);
    if needsZip64 {
      var record := Zip64Eocd(count, cdSize, cdOffset);
      var locator := Zip64Locator(cdOffset + cdSize);
      return record + locator + end;
    }
    return end;
  }

  // ---- the reader ----

  method FindEocd(tail: Bytes) returns (k: int)
    ensures k == FindEocdFrom(tail, |tail| - 22)
  {
    var i := |tail| - 22;
    while i >= 0
      invariant i >= -1 || i == |tail| - 22
      invariant FindEocdFrom(tail, i) == FindEocdFrom(tail, |tail| - 22)
    {
      if U32At(tail, i) == SIG_EOCD {
        var commentLen := U16At(tail, i + 20);
        if i + 22 + commentLen == |tail| {
          return i;
        }
      }
      i := i - 1;
    }
    return -1;
  }

  method ApplyZip64Extra(f: Fields, extra: Bytes) returns (r: Result<Fields, Error>)
    ensures r == ApplyExtra(f, extra, 0)
  {
    var pos := 0;
    while pos + 4 <= |extra|
      invariant ApplyExtra(f, extra, pos) == ApplyExtra(f, extra, 0)
      decreases |extra| - pos
    {
      var id, len := U16At(extra, pos), U16At(extra, pos + 2);
      if id == EXTRA_ZIP64 {
        return TakeValues(f, extra, pos + 4);
      }
      pos := pos + 4 + len;
    }
    return Ok(f);
  }

  /** Read the central directory entry at `cursor`, following its escapes and its local record. */
  method ReadEntryAt(b: Bytes, central: Bytes, cursor: nat) returns (r: Result<Parsed, Error>)
    ensures r == ReadEntry(b, From(central, cursor))
  {
    var h := From(central, cursor);
    if |h| < 4 {
      return Err(OutOfRange);
    }
    if U32At(h, 0) != SIG_CENTRAL {
      return Err(CorruptEntry);
    }
    if |h| < 46 {
      return Err(OutOfRange);
    }
    var n, x, compression := U16At(h, 28), U16At(h, 30), U16At(h, 10);
    var name, extra := Clip(h, 46, 46 + n), Clip(h, 46 + n, 46 + n + x);
    if U16At(h, 8) % 2 == 1 {
      return Err(Encrypted);
    }
    if compression != STORE && compression != DEFLATE {
      return Err(BadCompression);
    }
    var f := ApplyZip64Extra(Fields(U32At(h, 24), U32At(h, 20), U32At(h, 42)), extra);
    if f.Err? {
      return Err(f.error);
    }
    if !ValidName(name) {
      return Err(BadName);
    }
    var length := 46 + n + x + U16At(h, 32);
    if name[|name| - 1] == SLASH {
      return Ok(Parsed(name, None, length));
    }
    var data := ReadLocal(b, f.value.localOffset);
    if data.Err? {
      return Err(data.error);
    }
    return Ok(Parsed(name, Some(IndexEntry(data.value, f.value.csize, f.value.usize, compression, U32At(h, 16))), length));
  }

  function Merge(acc: Index, rest: Result<Index, Error>): Result<Index, Error> {
    if rest.Ok? then Ok(acc + rest.value) else rest
  }

  lemma {:induction false} MergeNext(b: Bytes, central: Bytes, cursor: nat, n: nat, acc: Index)
    requires n > 0
    ensures var p := ReadEntry(b, From(central, cursor));
            Merge(acc, ReadEntries(b, central, cursor, n)) ==
            if p.Err? then Err(p.error)
            else Merge(acc + Listed(p.value), ReadEntries(b, central, cursor + p.value.length, n - 1))
  {
    hide ReadEntry, Listed;
    var p := ReadEntry(b, From(central, cursor));
    if p.Ok? {
      var rest := ReadEntries(b, central, cursor + p.value.length, n - 1);
      if rest.Ok? {
        assert acc + (Listed(p.value) + rest.value) == acc + Listed(p.value) + rest.value;
      }
    }
  }

  /** Read n entries of the central directory into one index. */
  method ReadAll(b: Bytes, central: Bytes, n: nat) returns (r: Result<Index, Error>)
    ensures r == ReadEntries(b, central, 0, n)
  {
    hide ReadEntry;
    var entries: Index, cursor: nat := map[], 0;
    MergeEmpty(ReadEntries(b, central, 0, n));
    for i := 0 to n
      invariant ReadEntries(b, central, 0, n) == Merge(entries, ReadEntries(b, central, cursor, n - i))
    {
      MergeNext(b, central, cursor, n - i, entries);
      var p := ReadEntryAt(b, central, cursor);
      if p.Err? {
        return Err(p.error);
      }
      if p.value.entry.Some? {
        entries := entries + map[p.value.name := p.value.entry.value];
      } else {
        MergeNothing(entries);
      }
      cursor := cursor + p.value.length;
    }
    MergeNothing(entries);
    return Ok(entries);
  }

  lemma {:induction false} MergeEmpty(r: Result<Index, Error>)
    ensures Merge(map[], r) == r
  {
    if r.Ok? { assert map[] + r.value == r.value; }
  }

  lemma MergeNothing(acc: Index)
    ensures acc + map[] == acc
  {}

  /** The index of a bundle, from its bytes alone. */
  method Rebuild(b: Bytes) returns (r: Result<Index, Error>)
    ensures r == RebuildIndex(b)
  {
    hide ReadEntries, ReadDirectory;
    var d := LocateDirectory(b);
    if d.Err? {
      return Err(d.error);
    }
    r := ReadAll(b, ReadRange(b, d.value.offset, d.value.offset + d.value.size - 1), d.value.count);
  }

  method LocateDirectory(b: Bytes) returns (d: Result<Directory, Error>)
    ensures d == ReadDirectory(b)
  {
    var tailStart := Max(0, |b| - EOCD_MAX);
    var tail := ReadRange(b, tailStart, |b| - 1);
    var k := FindEocd(tail);
    if k < 0 {
      return Err(NoEocd);
    }
    var count, size, offset := U16At(tail, k + 10), U32At(tail, k + 12), U32At(tail, k + 16);
    if count == U16_MAX || size == U32_MAX || offset == U32_MAX {
      return ReadZip64(b, tailStart + k);
    }
    return Ok(Directory(count, size, offset));
  }
}
