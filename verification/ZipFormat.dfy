/**
  The byte layout of a `.ptrun` bundle: ZIP records with little-endian fields, and their
  ZIP64 escapes (PKWARE APPNOTE, sections 4.3.7, 4.3.12, 4.3.14 to 4.3.16 and 4.5.3).
*/
module ZipFormat {
  type Byte = b: int | 0 <= b < 256
  type Bytes = seq<Byte>

  const SIG_LOCAL := 0x04034b50
  const SIG_CENTRAL := 0x02014b50
  const SIG_EOCD := 0x06054b50
  const SIG_ZIP64_EOCD := 0x06064b50
  const SIG_ZIP64_LOCATOR := 0x07064b50
  const EXTRA_ZIP64 := 0x0001
  const STORE := 0
  const DEFLATE := 8
  const U16_MAX := 0xffff
  const U32_MAX := 0xffff_ffff
  const EOCD_MAX := 22 + U16_MAX
  const MAX_SAFE := 0x1f_ffff_ffff_ffff

  // ---- little-endian fields ----

  function LE2(n: nat): (b: Bytes)
    ensures |b| == 2
  {
    [n % 256, n / 256 % 256]
  }

  function LE4(n: nat): (b: Bytes)
    ensures |b| == 4
  {
    LE2(n) + LE2(n / 0x1_0000)
  }

  function LE8(n: nat): (b: Bytes)
    ensures |b| == 8
  {
    LE4(n) + LE4(n / 0x1_0000_0000)
  }

  predicate Fits(b: Bytes, o: int, w: nat) {
    0 <= o && o + w <= |b|
  }

  function U16At(b: Bytes, o: nat): (n: nat)
    requires Fits(b, o, 2)
    ensures n <= U16_MAX
  {
    (b[o] as int) + 256 * (b[o + 1] as int)
  }

  function U32At(b: Bytes, o: nat): (n: nat)
    requires Fits(b, o, 4)
    ensures n <= U32_MAX
  {
    U16At(b, o) + 0x1_0000 * U16At(b, o + 2)
  }

  function U64At(b: Bytes, o: nat): nat
    requires Fits(b, o, 8)
  {
    U32At(b, o) + 0x1_0000_0000 * U32At(b, o + 4)
  }

  /** The bytes of x stand in b at offset o. */
  predicate Holds(b: Bytes, o: nat, x: Bytes) {
    o + |x| <= |b| && forall k :: 0 <= k < |x| ==> b[o + k] == x[k]
  }

  lemma {:induction false} Read2(b: Bytes, o: nat, n: nat)
    requires n <= U16_MAX && Holds(b, o, LE2(n))
    ensures Fits(b, o, 2) && U16At(b, o) == n
  {
    assert b[o + 0] == LE2(n)[0] && b[o + 1] == LE2(n)[1];
  }

  lemma {:induction false} HoldsSplit(b: Bytes, o: nat, x: Bytes, y: Bytes)
    ensures Holds(b, o, x + y) <==> Holds(b, o, x) && Holds(b, o + |x|, y)
  {
    if Holds(b, o, x + y) {
      forall k | 0 <= k < |x| ensures b[o + k] == x[k] { assert b[o + k] == (x + y)[k]; }
      forall k | 0 <= k < |y| ensures b[o + |x| + k] == y[k] { assert b[o + (|x| + k)] == (x + y)[|x| + k]; }
    }
    if Holds(b, o, x) && Holds(b, o + |x|, y) {
      forall k | 0 <= k < |x + y| ensures b[o + k] == (x + y)[k] {
        if k >= |x| { assert b[o + |x| + (k - |x|)] == y[k - |x|]; }
      }
    }
  }

  lemma {:induction false} Read4(b: Bytes, o: nat, n: nat)
    requires n <= U32_MAX && Holds(b, o, LE4(n))
    ensures Fits(b, o, 4) && U32At(b, o) == n
  {
    HoldsSplit(b, o, LE2(n), LE2(n / 0x1_0000));
    LowHalf(n);
    assert LE2(n) == LE2(n % 0x1_0000);
    Read2(b, o, n % 0x1_0000);
    Read2(b, o + 2, n / 0x1_0000);
  }

  lemma LowHalf(n: nat)
    ensures n % 256 == n % 0x1_0000 % 256 && n / 256 % 256 == n % 0x1_0000 / 256 % 256
  {}

  lemma {:induction false} Read8(b: Bytes, o: nat, n: nat)
    requires n <= MAX_SAFE && Holds(b, o, LE8(n))
    ensures Fits(b, o, 8) && U64At(b, o) == n
  {
    var hi := n / 0x1_0000_0000;
    HoldsSplit(b, o, LE4(n), LE4(hi));
    assert LE4(n) == LE4(n % 0x1_0000_0000) by { LowWord(n); }
    Read4(b, o, n % 0x1_0000_0000);
    Read4(b, o + 4, hi);
  }

  lemma {:induction false} LowWord(n: nat)
    ensures LE4(n) == LE4(n % 0x1_0000_0000)
  {
    var low, hi := n % 0x1_0000_0000, n / 0x1_0000_0000;
    Remainders(low, hi);
    Remainders2(low, hi);
  }

  lemma {:induction false} Remainders(low: nat, hi: nat)
    ensures (low + 0x1_0000_0000 * hi) % 256 == low % 256
    ensures (low + 0x1_0000_0000 * hi) / 256 % 256 == low / 256 % 256
  {
    assert (low + 0x1_0000_0000 * hi) / 256 == low / 256 + 0x100_0000 * hi;
  }

  lemma {:induction false} Remainders2(low: nat, hi: nat)
    ensures (low + 0x1_0000_0000 * hi) / 0x1_0000 % 256 == low / 0x1_0000 % 256
    ensures (low + 0x1_0000_0000 * hi) / 0x1_0000 / 256 % 256 == low / 0x1_0000 / 256 % 256
  {
    var m := low / 0x1_0000;
    assert (low + 0x1_0000_0000 * hi) / 0x1_0000 == m + 0x1_0000 * hi;
    assert (m + 0x1_0000 * hi) / 256 == m / 256 + 0x100 * hi;
  }
}
