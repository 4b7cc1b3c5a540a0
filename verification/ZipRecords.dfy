/**
  The records a bundle is made of, as byte strings, and what a reader finds in them.
*/
module ZipRecords {
  import opened ZipFormat

  /** One entry as the writer gets it: `usize` and `crc` describe the contents, `body` is what is stored. */
  datatype Entry = Entry(name: Bytes, compression: nat, crc: nat, usize: nat, body: Bytes)

  function Words(values: seq<nat>): (b: Bytes)
    ensures |b| == 8 * |values|
  {
    if values == [] then [] else LE8(values[0]) + Words(values[1..])
  }

  /** The ZIP64 extra field: nothing at all when there is nothing to escape. */
  function Extra64(values: seq<nat>): (b: Bytes)
    ensures |b| == if values == [] then 0 else 4 + 8 * |values|
  {
    if values == [] then [] else LE2(EXTRA_ZIP64) + LE2(8 * |values|) + Words(values)
  }

  function Escaped(n: nat): nat {
    if n > U32_MAX then U32_MAX else n
  }

  predicate Large(e: Entry) {
    e.usize > U32_MAX || |e.body| > U32_MAX
  }

  function LocalExtra(e: Entry): Bytes {
    Extra64(if Large(e) then [e.usize, |e.body|] else [])
  }

  function LocalFixed(zip64: bool, compression: nat, crc: nat, csize: nat, usize: nat, nameLen: nat, extraLen: nat): (b: Bytes)
    ensures |b| == 30
  {
    LE4(SIG_LOCAL) + LE2(if zip64 then 45 else 20) + LE2(0) + LE2(compression) + LE2(0) + LE2(0) + LE4(crc)
    + LE4(csize) + LE4(usize) + LE2(nameLen) + LE2(extraLen)
  }

  function LocalBytes(e: Entry): (b: Bytes)
    ensures |b| == 30 + |e.name| + |LocalExtra(e)|
  {
    LocalFixed(Large(e), e.compression, e.crc, if Large(e) then U32_MAX else |e.body|,
               if Large(e) then U32_MAX else e.usize, |e.name|, |LocalExtra(e)|)
    + e.name + LocalExtra(e)
  }

  function CentralValues(e: Entry, offset: nat): seq<nat> {
    (if e.usize > U32_MAX then [e.usize] else [])
    + (if |e.body| > U32_MAX then [|e.body|] else [])
    + (if offset > U32_MAX then [offset] else [])
  }

  function CentralExtra(e: Entry, offset: nat): Bytes {
    Extra64(CentralValues(e, offset))
  }

  function CentralFixed(zip64: bool, compression: nat, crc: nat, csize: nat, usize: nat, nameLen: nat, extraLen: nat,
                        offset: nat): (b: Bytes)
    ensures |b| == 46
  {
    var version := LE2(if zip64 then 45 else 20);
    LE4(SIG_CENTRAL) + version + version + LE2(0) + LE2(compression) + LE2(0) + LE2(0) + LE4(crc)
    + LE4(csize) + LE4(usize) + LE2(nameLen) + LE2(extraLen) + LE2(0) + LE2(0) + LE2(0) + LE4(0) + LE4(offset)
  }

  function CentralBytes(e: Entry, offset: nat): (b: Bytes)
    ensures |b| == 46 + |e.name| + |CentralExtra(e, offset)|
  {
    CentralFixed(Large(e) || offset > U32_MAX, e.compression, e.crc, Escaped(|e.body|), Escaped(e.usize), |e.name|,
                 |CentralExtra(e, offset)|, Escaped(offset))
    + e.name + CentralExtra(e, offset)
  }

  function EocdBytes(count: nat, cdSize: nat, cdOffset: nat): (b: Bytes)
    ensures |b| == 22
  {
    LE4(SIG_EOCD) + LE2(0) + LE2(0) + LE2(count) + LE2(count) + LE4(cdSize) + LE4(cdOffset) + LE2(0)
  }

  function Zip64EocdBytes(count: nat, cdSize: nat, cdOffset: nat): (b: Bytes)
    ensures |b| == 56
  {
    LE4(SIG_ZIP64_EOCD) + LE8(44) + LE2(45) + LE2(45) + LE4(0) + LE4(0) + LE8(count) + LE8(count) + LE8(cdSize) + LE8(cdOffset)
  }

  function LocatorBytes(offset: nat): (b: Bytes)
    ensures |b| == 20
  {
    LE4(SIG_ZIP64_LOCATOR) + LE4(0) + LE8(offset) + LE4(1)
  }

  // ---- reading the records back ----

  lemma {:induction false} LocalFields(zip64: bool, compression: nat, crc: nat, csize: nat, usize: nat, n: nat, x: nat)
    requires n <= U16_MAX && x <= U16_MAX
    ensures var h := LocalFixed(zip64, compression, crc, csize, usize, n, x);
            U32At(h, 0) == SIG_LOCAL && U16At(h, 26) == n && U16At(h, 28) == x
  {
    var h := LocalFixed(zip64, compression, crc, csize, usize, n, x);
    Read4(h, 0, SIG_LOCAL);
    Read2(h, 26, n);
    Read2(h, 28, x);
  }

  lemma {:induction false} CentralFields(zip64: bool, compression: nat, crc: nat, csize: nat, usize: nat, n: nat, x: nat, offset: nat)
    requires compression <= U16_MAX && crc <= U32_MAX && csize <= U32_MAX && usize <= U32_MAX
    requires n <= U16_MAX && x <= U16_MAX && offset <= U32_MAX
    ensures var h := CentralFixed(zip64, compression, crc, csize, usize, n, x, offset);
            && U32At(h, 0) == SIG_CENTRAL && U16At(h, 8) == 0 && U16At(h, 10) == compression && U32At(h, 16) == crc
            && U32At(h, 20) == csize && U32At(h, 24) == usize && U16At(h, 28) == n && U16At(h, 30) == x
            && U16At(h, 32) == 0 && U32At(h, 42) == offset
  {
    var h := CentralFixed(zip64, compression, crc, csize, usize, n, x, offset);
    Read4(h, 0, SIG_CENTRAL);
    Read2(h, 8, 0);
    Read2(h, 10, compression);
    Read4(h, 16, crc);
    Read4(h, 20, csize);
    Read4(h, 24, usize);
    Read2(h, 28, n);
    Read2(h, 30, x);
    Read2(h, 32, 0);
    Read4(h, 42, offset);
  }

  lemma {:induction false} EocdFields(count: nat, cdSize: nat, cdOffset: nat)
    requires count <= U16_MAX && cdSize <= U32_MAX && cdOffset <= U32_MAX
    ensures var h := EocdBytes(count, cdSize, cdOffset);
            && U32At(h, 0) == SIG_EOCD && U16At(h, 10) == count && U32At(h, 12) == cdSize
            && U32At(h, 16) == cdOffset && U16At(h, 20) == 0
  {
    var h := EocdBytes(count, cdSize, cdOffset);
    Read4(h, 0, SIG_EOCD);
    Read2(h, 10, count);
    Read4(h, 12, cdSize);
    Read4(h, 16, cdOffset);
    Read2(h, 20, 0);
  }

  lemma {:induction false} Zip64EocdFields(count: nat, cdSize: nat, cdOffset: nat)
    requires count <= MAX_SAFE && cdSize <= MAX_SAFE && cdOffset <= MAX_SAFE
    ensures var h := Zip64EocdBytes(count, cdSize, cdOffset);
            U32At(h, 0) == SIG_ZIP64_EOCD && U64At(h, 32) == count && U64At(h, 40) == cdSize && U64At(h, 48) == cdOffset
  {
    var h := Zip64EocdBytes(count, cdSize, cdOffset);
    Read4(h, 0, SIG_ZIP64_EOCD);
    Read8(h, 32, count);
    Read8(h, 40, cdSize);
    Read8(h, 48, cdOffset);
  }

  lemma {:induction false} LocatorFields(offset: nat)
    requires offset <= MAX_SAFE
    ensures var h := LocatorBytes(offset); U32At(h, 0) == SIG_ZIP64_LOCATOR && U64At(h, 8) == offset
  {
    var h := LocatorBytes(offset);
    Read4(h, 0, SIG_ZIP64_LOCATOR);
    Read8(h, 8, offset);
  }
}
