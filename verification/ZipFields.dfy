/**
  What the written records say, field by field, at the offsets the APPNOTE gives them: read
  from the bytes alone, every record of a bundle describes its own entry, and an entry's local
  record and directory record agree.
*/
module ZipFields {
  import opened Common
  import opened ZipFormat
  import opened ZipRecords
  import opened ZipArchive
  import opened ZipRoundTrip
  import Zip

  const VERSION_PLAIN := 20
  const VERSION_ZIP64 := 45

  // ---- one record after the other ----

  lemma {:induction false} Moved(b: Bytes, at: nat, x: Bytes, o: nat, w: nat)
    requires Holds(b, at, x) && o + w <= |x|
    ensures Fits(b, at + o, w)
    ensures w == 2 ==> U16At(b, at + o) == U16At(x, o)
    ensures w == 4 ==> U32At(b, at + o) == U32At(x, o)
    ensures w == 8 ==> U64At(b, at + o) == U64At(x, o)
  {
    forall k | o <= k < o + w ensures b[at + k] == x[k] {}
    assert w == 2 ==> b[at + o] == x[o] && b[at + (o + 1)] == x[o + 1];
    assert w == 4 ==> b[at + o] == x[o] && b[at + (o + 1)] == x[o + 1] && b[at + (o + 2)] == x[o + 2] && b[at + (o + 3)] == x[o + 3];
    if w == 8 {
      assert forall k {:trigger x[o + k]} :: 0 <= k < 8 ==> b[at + (o + k)] == x[o + k];
      assert x[o + 0] == b[at + o] && x[o + 1] == b[at + o + 1] && x[o + 2] == b[at + o + 2] && x[o + 3] == b[at + o + 3];
      assert x[o + 4] == b[at + o + 4] && x[o + 5] == b[at + o + 5] && x[o + 6] == b[at + o + 6] && x[o + 7] == b[at + o + 7];
    }
  }

  lemma {:induction false} LocalFixedFields(zip64: bool, compression: nat, crc: nat, csize: nat, usize: nat, n: nat, x: nat)
    requires compression <= U16_MAX && crc <= U32_MAX && csize <= U32_MAX && usize <= U32_MAX
    ensures var h := LocalFixed(zip64, compression, crc, csize, usize, n, x);
            && U16At(h, 4) == (if zip64 then VERSION_ZIP64 else VERSION_PLAIN) && U16At(h, 6) == 0
            && U16At(h, 8) == compression && U16At(h, 10) == 0 && U16At(h, 12) == 0 && U32At(h, 14) == crc
            && U32At(h, 18) == csize && U32At(h, 22) == usize
  {
    hide LE2, LE4, U16At, U32At;
    var h := LocalFixed(zip64, compression, crc, csize, usize, n, x);
    Read2(h, 4, if zip64 then 45 else 20);
    Read2(h, 6, 0);
    Read2(h, 8, compression);
    Read2(h, 10, 0);
    Read2(h, 12, 0);
    Read4(h, 14, crc);
    Read4(h, 18, csize);
    Read4(h, 22, usize);
  }

  lemma {:induction false} LocalFixedHeld(e: Entry)
    ensures var csize, usize := if Large(e) then U32_MAX else |e.body|, if Large(e) then U32_MAX else e.usize;
            Holds(LocalBytes(e), 0, LocalFixed(Large(e), e.compression, e.crc, csize, usize, |e.name|, |LocalExtra(e)|))
    ensures |LocalExtra(e)| == (if Large(e) then 20 else 0)
    ensures var h := LocalBytes(e); h[30..30 + |e.name|] == e.name && h[30 + |e.name|..] == LocalExtra(e)
  {
    hide LocalFixed;
    var fixed := LocalFixed(Large(e), e.compression, e.crc, if Large(e) then U32_MAX else |e.body|,
                            if Large(e) then U32_MAX else e.usize, |e.name|, |LocalExtra(e)|);
    HoldsSplit(LocalBytes(e), 0, fixed, e.name + LocalExtra(e));
    assert LocalBytes(e) == fixed + (e.name + LocalExtra(e));
  }

  /** The local record of an entry: APPNOTE 4.3.7. */
  lemma {:induction false} LocalFront(e: Entry)
    requires WritableEntry(e) && |e.body| <= MAX_SAFE
    ensures var h := LocalBytes(e);
            && |h| == 30 + |e.name| + (if Large(e) then 20 else 0)
            && U32At(h, 0) == SIG_LOCAL && U16At(h, 4) == (if Large(e) then VERSION_ZIP64 else VERSION_PLAIN) && U16At(h, 6) == 0
            && U16At(h, 8) == e.compression && U16At(h, 10) == 0 && U16At(h, 12) == 0 && U32At(h, 14) == e.crc
            && U32At(h, 18) == (if Large(e) then U32_MAX else |e.body|) && U32At(h, 22) == (if Large(e) then U32_MAX else e.usize)
            && U16At(h, 26) == |e.name| && U16At(h, 28) == |h| - 30 - |e.name| && h[30..30 + |e.name|] == e.name
  {
    hide U16At, U32At, ValidName, LocalFixed, LocalBytes, LocalExtra, Holds;
    var csize, usize := if Large(e) then U32_MAX else |e.body|, if Large(e) then U32_MAX else e.usize;
    var h, fixed := LocalBytes(e), LocalFixed(Large(e), e.compression, e.crc, csize, usize, |e.name|, |LocalExtra(e)|);
    LocalFixedHeld(e);
    LocalFixedFields(Large(e), e.compression, e.crc, csize, usize, |e.name|, |LocalExtra(e)|);
    LocalFields(Large(e), e.compression, e.crc, csize, usize, |e.name|, |LocalExtra(e)|);
    Moved(h, 0, fixed, 0, 4);
    Moved(h, 0, fixed, 4, 2);
    Moved(h, 0, fixed, 6, 2);
    Moved(h, 0, fixed, 8, 2);
    Moved(h, 0, fixed, 10, 2);
    Moved(h, 0, fixed, 12, 2);
    Moved(h, 0, fixed, 14, 4);
    Moved(h, 0, fixed, 18, 4);
    Moved(h, 0, fixed, 22, 4);
    Moved(h, 0, fixed, 26, 2);
    Moved(h, 0, fixed, 28, 2);
  }

  /** What a ZIP64 extra field says: its mark, its length, and the values in order. */
  lemma {:induction false} ExtraFront(values: seq<nat>)
    requires 0 < |values| <= 3 && forall i :: 0 <= i < |values| ==> values[i] <= MAX_SAFE
    ensures var x := Extra64(values);
            && |x| == 4 + 8 * |values| && U16At(x, 0) == EXTRA_ZIP64 && U16At(x, 2) == 8 * |values|
            && forall i :: 0 <= i < |values| ==> U64At(x, 4 + 8 * i) == values[i]
  {
    hide Words, U16At, U32At, U64At, LE2;
    var x := Extra64(values);
    Read2(x, 2, 8 * |values|);
    ExtraWords(values, 0);
    if |values| > 1 { ExtraWords(values, 1); }
    if |values| > 2 { ExtraWords(values, 2); }
  }

  lemma {:induction false} Behind(front: Bytes, x: Bytes)
    ensures Holds(front + x, |front|, x)
  {}

  /** A local record with an oversized value carries both sizes: the contents', then the stored one's. */
  lemma {:induction false} LocalEscapes(e: Entry)
    requires WritableEntry(e) && |e.body| <= MAX_SAFE && Large(e)
    ensures var h, x := LocalBytes(e), 30 + |e.name|;
            && |h| == x + 20 && U16At(h, x) == EXTRA_ZIP64 && U16At(h, x + 2) == 16
            && U64At(h, x + 4) == e.usize && U64At(h, x + 12) == |e.body|
  {
    hide LocalFixed, Extra64, U16At, U64At;
    var h, x := LocalBytes(e), LocalExtra(e);
    ExtraFront([e.usize, |e.body|]);
    assert h == h[..30 + |e.name|] + x;
    Behind(h[..30 + |e.name|], x);
    Moved(h, 30 + |e.name|, x, 0, 2);
    Moved(h, 30 + |e.name|, x, 2, 2);
    assert [e.usize, |e.body|][0] == e.usize && [e.usize, |e.body|][1] == |e.body|;
    Moved(h, 30 + |e.name|, x, 4, 8);
    Moved(h, 30 + |e.name|, x, 12, 8);
  }

  lemma {:induction false} FixedRest(zip64: bool, compression: nat, crc: nat, csize: nat, usize: nat, n: nat, x: nat, offset: nat)
    ensures var h, version := CentralFixed(zip64, compression, crc, csize, usize, n, x, offset), if zip64 then VERSION_ZIP64 else VERSION_PLAIN;
            && U16At(h, 4) == version && U16At(h, 6) == version && U16At(h, 12) == 0 && U16At(h, 14) == 0
            && U16At(h, 34) == 0 && U16At(h, 36) == 0 && U32At(h, 38) == 0
  {
    hide LE2, LE4, U16At, U32At;
    var h, version := CentralFixed(zip64, compression, crc, csize, usize, n, x, offset), if zip64 then 45 else 20;
    Read2(h, 4, version);
    Read2(h, 6, version);
    Read2(h, 12, 0);
    Read2(h, 14, 0);
    Read2(h, 34, 0);
    Read2(h, 36, 0);
    Read4(h, 38, 0);
  }

  lemma {:induction false} FixedHeld(e: Entry, offset: nat)
    ensures Holds(CentralBytes(e, offset), 0, CentralFixedOf(e, offset))
  {
    hide CentralFixed, CentralExtra;
    HoldsSplit(CentralBytes(e, offset), 0, CentralFixedOf(e, offset), e.name + CentralExtra(e, offset));
    assert CentralBytes(e, offset) == CentralFixedOf(e, offset) + (e.name + CentralExtra(e, offset));
  }

  /** The directory record of an entry whose local record stands at `offset`: APPNOTE 4.3.12. */
  lemma {:induction false} CentralFront(e: Entry, offset: nat)
    requires WritableEntry(e) && |e.body| <= MAX_SAFE && offset <= MAX_SAFE
    ensures var h, version := CentralBytes(e, offset), if Large(e) || offset > U32_MAX then VERSION_ZIP64 else VERSION_PLAIN;
            && |h| == 46 + |e.name| + |CentralExtra(e, offset)|
            && U32At(h, 0) == SIG_CENTRAL && U16At(h, 4) == version && U16At(h, 6) == version && U16At(h, 8) == 0
            && U16At(h, 10) == e.compression && U16At(h, 12) == 0 && U16At(h, 14) == 0 && U32At(h, 16) == e.crc
            && U32At(h, 20) == Min(|e.body|, U32_MAX) && U32At(h, 24) == Min(e.usize, U32_MAX)
  {
    hide LE2, LE4, U16At, U32At, ValidName, CentralFixed, CentralBytes, CentralExtra, Holds;
    var h, fixed := CentralBytes(e, offset), CentralFixedOf(e, offset);
    var zip64, x := Large(e) || offset > U32_MAX, |CentralExtra(e, offset)|;
    ShortExtra(e, offset);
    FixedHeld(e, offset);
    CentralFields(zip64, e.compression, e.crc, Escaped(|e.body|), Escaped(e.usize), |e.name|, x, Escaped(offset));
    FixedRest(zip64, e.compression, e.crc, Escaped(|e.body|), Escaped(e.usize), |e.name|, x, Escaped(offset));
    Moved(h, 0, fixed, 0, 4);
    Moved(h, 0, fixed, 4, 2);
    Moved(h, 0, fixed, 6, 2);
    Moved(h, 0, fixed, 8, 2);
    Moved(h, 0, fixed, 10, 2);
    Moved(h, 0, fixed, 12, 2);
    Moved(h, 0, fixed, 14, 2);
    Moved(h, 0, fixed, 16, 4);
    Moved(h, 0, fixed, 20, 4);
    Moved(h, 0, fixed, 24, 4);
  }

  lemma {:induction false} CentralBack(e: Entry, offset: nat)
    requires WritableEntry(e) && |e.body| <= MAX_SAFE && offset <= MAX_SAFE
    ensures var h := CentralBytes(e, offset);
            && |h| == 46 + |e.name| + |CentralExtra(e, offset)|
            && U16At(h, 28) == |e.name| && U16At(h, 30) == |h| - 46 - |e.name|
            && U16At(h, 32) == 0 && U16At(h, 34) == 0 && U16At(h, 36) == 0 && U32At(h, 38) == 0
            && U32At(h, 42) == Min(offset, U32_MAX) && h[46..46 + |e.name|] == e.name && h[46 + |e.name|..] == CentralExtra(e, offset)
  {
    hide LE2, LE4, U16At, U32At, ValidName, CentralFixed, CentralBytes, CentralExtra, Holds;
    var h, fixed := CentralBytes(e, offset), CentralFixedOf(e, offset);
    var zip64, x := Large(e) || offset > U32_MAX, |CentralExtra(e, offset)|;
    ShortExtra(e, offset);
    FixedHeld(e, offset);
    CentralFields(zip64, e.compression, e.crc, Escaped(|e.body|), Escaped(e.usize), |e.name|, x, Escaped(offset));
    FixedRest(zip64, e.compression, e.crc, Escaped(|e.body|), Escaped(e.usize), |e.name|, x, Escaped(offset));
    Moved(h, 0, fixed, 28, 2);
    Moved(h, 0, fixed, 30, 2);
    Moved(h, 0, fixed, 32, 2);
    Moved(h, 0, fixed, 34, 2);
    Moved(h, 0, fixed, 36, 2);
    Moved(h, 0, fixed, 38, 4);
    Moved(h, 0, fixed, 42, 4);
  }

  lemma ShortExtra(e: Entry, offset: nat)
    ensures |CentralExtra(e, offset)| <= 28
    ensures var h := CentralBytes(e, offset); h[46..46 + |e.name|] == e.name && h[46 + |e.name|..] == CentralExtra(e, offset)
  {}

  /** The end records: APPNOTE 4.3.16, 4.3.14 and 4.3.15. */
  lemma {:induction false} EndRecord(count: nat, cdSize: nat, cdOffset: nat)
    requires count <= U16_MAX && cdSize <= U32_MAX && cdOffset <= U32_MAX
    ensures var h := EocdBytes(count, cdSize, cdOffset);
            && U32At(h, 0) == SIG_EOCD && U16At(h, 4) == 0 && U16At(h, 6) == 0 && U16At(h, 8) == count && U16At(h, 10) == count
            && U32At(h, 12) == cdSize && U32At(h, 16) == cdOffset && U16At(h, 20) == 0
  {
    hide EocdBytes, U16At, U32At;
    EocdFields(count, cdSize, cdOffset);
    EndRest(count, cdSize, cdOffset);
  }

  lemma {:induction false} EndRest(count: nat, cdSize: nat, cdOffset: nat)
    requires count <= U16_MAX
    ensures var h := EocdBytes(count, cdSize, cdOffset); U16At(h, 4) == 0 && U16At(h, 6) == 0 && U16At(h, 8) == count
  {
    hide LE2, LE4, U16At;
    var h := EocdBytes(count, cdSize, cdOffset);
    Read2(h, 4, 0);
    Read2(h, 6, 0);
    Read2(h, 8, count);
  }

  lemma {:induction false} Zip64EndRecord(count: nat, cdSize: nat, cdOffset: nat)
    requires count <= MAX_SAFE && cdSize <= MAX_SAFE && cdOffset <= MAX_SAFE
    ensures var h := Zip64EocdBytes(count, cdSize, cdOffset);
            && U32At(h, 0) == SIG_ZIP64_EOCD && U64At(h, 4) == |h| - 12 && U16At(h, 12) == VERSION_ZIP64 && U16At(h, 14) == VERSION_ZIP64
            && U32At(h, 16) == 0 && U32At(h, 20) == 0 && U64At(h, 24) == count && U64At(h, 32) == count
            && U64At(h, 40) == cdSize && U64At(h, 48) == cdOffset
  {
    hide LE2, LE4, LE8, U16At, U32At, U64At;
    var h := Zip64EocdBytes(count, cdSize, cdOffset);
    Read4(h, 0, SIG_ZIP64_EOCD);
    Read8(h, 4, 44);
    Read2(h, 12, 45);
    Read2(h, 14, 45);
    Read4(h, 16, 0);
    Read4(h, 20, 0);
    Read8(h, 24, count);
    Read8(h, 32, count);
    Read8(h, 40, cdSize);
    Read8(h, 48, cdOffset);
  }

  lemma {:induction false} LocatorRecord(offset: nat)
    requires offset <= MAX_SAFE
    ensures var h := LocatorBytes(offset);
            U32At(h, 0) == SIG_ZIP64_LOCATOR && U32At(h, 4) == 0 && U64At(h, 8) == offset && U32At(h, 16) == 1
  {
    hide LE4, LE8, U32At, U64At;
    var h := LocatorBytes(offset);
    Read4(h, 0, SIG_ZIP64_LOCATOR);
    Read4(h, 4, 0);
    Read8(h, 8, offset);
    Read4(h, 16, 1);
  }

  // ---- the two records of an entry, decoded ----

  /** What a record says of its entry. */
  datatype Meta = Meta(compression: nat, crc: nat, usize: nat, csize: nat)

  /** The local record at this offset, its sizes taken from the extra field where they are escaped. */
  function LocalMeta(b: Bytes, at: nat): Result<Meta, Error> {
    if !Fits(b, at, 30) then Err(OutOfRange)
    else if U32At(b, at) != SIG_LOCAL then Err(LocalMissing)
    else
      var n, x := U16At(b, at + 26), U16At(b, at + 28);
      if !Fits(b, at + 30 + n, x) then Err(OutOfRange)
      else
        var f :- ApplyExtra(Fields(U32At(b, at + 22), U32At(b, at + 18), 0), b[at + 30 + n..at + 30 + n + x], 0);
        Ok(Meta(U16At(b, at + 8), U32At(b, at + 14), f.usize, f.csize))
  }

  /** The directory record at this offset, and where its local record is. */
  function CentralMeta(b: Bytes, at: nat): Result<(Meta, nat), Error> {
    if !Fits(b, at, 46) then Err(OutOfRange)
    else if U32At(b, at) != SIG_CENTRAL then Err(CorruptEntry)
    else
      var n, x := U16At(b, at + 28), U16At(b, at + 30);
      if !Fits(b, at + 46 + n, x) then Err(OutOfRange)
      else
        var f :- ApplyExtra(Fields(U32At(b, at + 24), U32At(b, at + 20), U32At(b, at + 42)), b[at + 46 + n..at + 46 + n + x], 0);
        Ok((Meta(U16At(b, at + 10), U32At(b, at + 16), f.usize, f.csize), f.localOffset))
  }

  function MetaOf(e: Entry): Meta {
    Meta(e.compression, e.crc, e.usize, |e.body|)
  }

  lemma {:induction false} HeldSlice(b: Bytes, at: nat, x: Bytes, from: nat, to: nat)
    requires Holds(b, at, x) && from <= to <= |x|
    ensures b[at + from..at + to] == x[from..to]
  {
    forall k | 0 <= k < to - from ensures b[at + from..at + to][k] == x[from..to][k] { assert b[at + (from + k)] == x[from + k]; }
  }

  lemma {:induction false} LocalExtraReads(e: Entry)
    requires e.usize <= MAX_SAFE && |e.body| <= MAX_SAFE
    ensures ApplyExtra(Fields(if Large(e) then U32_MAX else e.usize, if Large(e) then U32_MAX else |e.body|, 0), LocalExtra(e), 0)
         == Ok(Fields(e.usize, |e.body|, 0))
  {
    if Large(e) {
      ExtraWords([e.usize, |e.body|], 0);
      ExtraWords([e.usize, |e.body|], 1);
    }
  }

  /** A local record always says what its entry is. */
  lemma {:induction false} LocalSays(b: Bytes, e: Entry, at: nat)
    requires WritableEntry(e) && |e.body| <= MAX_SAFE && Holds(b, at, LocalBytes(e))
    ensures LocalMeta(b, at) == Ok(MetaOf(e))
  {
    hide LocalBytes, LocalExtra, ApplyExtra, Large, U16At, U32At, Holds, ValidName;
    var h := LocalBytes(e);
    LocalFixedHeld(e);
    LocalFront(e);
    Moved(b, at, h, 0, 4);
    Moved(b, at, h, 8, 2);
    Moved(b, at, h, 14, 4);
    Moved(b, at, h, 18, 4);
    Moved(b, at, h, 22, 4);
    Moved(b, at, h, 26, 2);
    Moved(b, at, h, 28, 2);
    HeldWhole(b, at, h);
    HeldSlice(b, at, h, 30 + |e.name|, |h|);
    assert h[30 + |e.name|..|h|] == h[30 + |e.name|..];
    assert at + 30 + |e.name| + |LocalExtra(e)| == at + |h|;
    LocalExtraReads(e);
  }

  lemma HeldWhole(b: Bytes, at: nat, x: Bytes)
    requires Holds(b, at, x)
    ensures at + |x| <= |b|
  {}

  /** A directory record says what its entry is, and where, unless a value clashes with an escape. */
  lemma {:induction false} CentralSays(b: Bytes, e: Entry, offset: nat, at: nat)
    requires WritableEntry(e) && |e.body| <= MAX_SAFE && offset <= MAX_SAFE && Holds(b, at, CentralBytes(e, offset))
    ensures CentralMeta(b, at) == if EntryClash(e, offset) then Err(OutOfRange) else Ok((MetaOf(e), offset))
  {
    hide CentralBytes, CentralExtra, ApplyExtra, EntryClash, U16At, U32At, Holds, ValidName;
    var h := CentralBytes(e, offset);
    CentralFront(e, offset);
    CentralBack(e, offset);
    Moved(b, at, h, 0, 4);
    Moved(b, at, h, 10, 2);
    Moved(b, at, h, 16, 4);
    Moved(b, at, h, 20, 4);
    Moved(b, at, h, 24, 4);
    Moved(b, at, h, 28, 2);
    Moved(b, at, h, 30, 2);
    Moved(b, at, h, 42, 4);
    HeldWhole(b, at, h);
    HeldSlice(b, at, h, 46 + |e.name|, |h|);
    assert h[46 + |e.name|..|h|] == h[46 + |e.name|..];
    assert at + 46 + |e.name| + |CentralExtra(e, offset)| == at + |h|;
    ExtraReads(e, offset);
  }

  // ---- in the whole bundle ----

  function LocalStart(es: seq<Entry>, i: nat): nat
    requires i < |es|
  {
    |Locals(es[..i])|
  }

  function CentralStart(es: seq<Entry>, i: nat): nat
    requires i < |es|
  {
    |Locals(es)| + |Central(es[..i], 0)|
  }

  lemma LocalsFirst(es: seq<Entry>)
    requires es != []
    ensures Locals(es) == LocalBytes(es[0]) + es[0].body + Locals(es[1..])
  {}

  lemma CentralFirst(es: seq<Entry>, start: nat)
    requires es != []
    ensures Central(es, start) == CentralBytes(es[0], start) + Central(es[1..], start + SizeOf(es[0]))
  {}

  lemma {:induction false} LocalHeld(b: Bytes, es: seq<Entry>, start: nat, i: nat)
    requires i < |es| && Holds(b, start, Locals(es))
    ensures Holds(b, start + |Locals(es[..i])|, LocalBytes(es[i]) + es[i].body)
    decreases i
  {
    hide LocalBytes, Locals, Holds;
    LocalsFirst(es);
    HoldsSplit(b, start, LocalBytes(es[0]) + es[0].body, Locals(es[1..]));
    if i == 0 {
      Zip.EmptyLayout(es);
    } else {
      LocalHeld(b, es[1..], start + SizeOf(es[0]), i - 1);
      Zip.LocalsCons(es, i);
    }
  }

  lemma {:induction false} CentralHeld(b: Bytes, es: seq<Entry>, at: nat, start: nat, i: nat)
    requires i < |es| && Holds(b, at, Central(es, start))
    ensures Holds(b, at + |Central(es[..i], start)|, CentralBytes(es[i], start + |Locals(es[..i])|))
    decreases i
  {
    hide CentralBytes, LocalBytes, Locals, Central, Holds, Large;
    var first := CentralBytes(es[0], start);
    CentralFirst(es, start);
    HoldsSplit(b, at, first, Central(es[1..], start + SizeOf(es[0])));
    if i == 0 {
      Zip.EmptyLayout(es);
      Zip.NoCentral(es, start);
    } else {
      var rest, after := es[1..], start + SizeOf(es[0]);
      CentralHeld(b, rest, at + |first|, after, i - 1);
      Zip.CentralCons(es, i, start);
      Zip.LocalsCons(es, i);
      assert at + |Central(es[..i], start)| == at + |first| + |Central(rest[..i - 1], after)|;
      assert start + |Locals(es[..i])| == after + |Locals(rest[..i - 1])|;
    }
  }

  /**
    In a written bundle the local record of every entry, and its directory record unless a value clashes, say the
    same: the entry's own method, checksum and sizes; and the directory points at the local record.
  */
  lemma {:induction false} RecordsAgree(es: seq<Entry>, i: nat)
    requires Writable(es) && i < |es|
    ensures var b, at := Archive(es), LocalStart(es, i);
            && LocalMeta(b, at) == Ok(MetaOf(es[i]))
            && CentralMeta(b, CentralStart(es, i)) == (if EntryClash(es[i], at) then Err(OutOfRange) else Ok((MetaOf(es[i]), at)))
  {
    hide LocalBytes, CentralBytes, Locals, Central, Trailer, EntryClash, LocalMeta, CentralMeta, WritableEntry, Holds;
    var b, at := Archive(es), LocalStart(es, i);
    LocalsHeld(es);
    LocalHeld(b, es, 0, i);
    HoldsSplit(b, at, LocalBytes(es[i]), es[i].body);
    DirectoryHeld(es);
    CentralHeld(b, es, |Locals(es)|, 0, i);
    HeldWhole(b, at, LocalBytes(es[i]) + es[i].body);
    LocalSays(b, es[i], at);
    CentralSays(b, es[i], at, CentralStart(es, i));
  }

  lemma DirectoryHeld(es: seq<Entry>)
    ensures Holds(Archive(es), |Locals(es)|, Central(es, 0))
  {}
}
