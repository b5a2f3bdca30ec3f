/**
 * Layout arithmetic of the Metal surface readback: the resolve rectangle default,
 * the row pitch that rounds a stride up to the copy alignment, the size of the
 * staging buffer, and the copy of padded rows into the tightly packed output.
 *
 * Buffers are modelled as bytes. The float readbacks fill an array of
 * `FFloat16Color`, four 16-bit halves per pixel, so an output of `n` pixels is
 * `n * Float16ColorBytes` bytes and one output row is `SizeX * Float16ColorBytes` bytes.
 */
module ReadbackLayout {
  import opened Wrappers

  /** A resolve rectangle; a negative coordinate means "use the whole surface". */
  datatype ResolveRect = ResolveRect(x1: int, y1: int, x2: int, y2: int)

  predicate Specified(rect: ResolveRect) {
    rect.x1 >= 0 && rect.x2 >= 0 && rect.y1 >= 0 && rect.y2 >= 0
  }

  /** The rectangle itself when every corner is given, the whole default-sized surface otherwise. */
  function GetDefaultRect(rect: ResolveRect, defaultWidth: nat, defaultHeight: nat): (r: ResolveRect)
    ensures r == rect <==> Specified(rect)
    ensures !Specified(rect) ==> r == ResolveRect(0, 0, defaultWidth, defaultHeight)
    ensures Specified(r)
  {
    if Specified(rect) then rect else ResolveRect(0, 0, defaultWidth, defaultHeight)
  }

  /** Bytes of one `FFloat16Color`. */
  const Float16ColorBytes: nat := 8

  /** `2^32`, where `uint32` arithmetic wraps. */
  const Word: nat := 0x1_0000_0000

  /** Largest stride that rounding up to a 64-byte pitch leaves inside 32 bits. */
  const MaxStride: nat := 0xFFFF_FFC0

  /** Row alignment of the staging buffer: Mac allows tightly packed rows, other Apple platforms need 64 bytes. */
  function Alignment(isMac: bool): (a: nat)
    ensures a == 1 || a == 64
  {
    if isMac then 1 else 64
  }

  /** `2^n`. */
  function Pow2(n: nat): (p: nat)
    ensures p >= 1
  {
    if n == 0 then 1 else 2 * Pow2(n - 1)
  }

  /** Bitwise AND of two naturals, bit by bit from the lowest. */
  function BitAnd(x: nat, y: nat): nat
  {
    if x == 0 || y == 0 then 0
    else 2 * BitAnd(x / 2, y / 2) + (if x % 2 == 1 && y % 2 == 1 then 1 else 0)
  }

  /** The value of the lowest `k` bits of `x`. */
  function LowBits(x: nat, k: nat): (r: nat)
    ensures r <= x && r < Pow2(k)
  {
    if k == 0 then 0 else 2 * LowBits(x / 2, k - 1) + x % 2
  }

  lemma {:induction false} AndAllOnes(x: nat, n: nat)
    requires x < Pow2(n)
    ensures BitAnd(x, Pow2(n) - 1) == x
  {
    if n > 0 && x > 0 {
      AndAllOnes(x / 2, n - 1);
    }
  }

  lemma {:induction false} AndClearsLowBits(x: nat, n: nat, k: nat)
    requires k <= n && x < Pow2(n)
    ensures Pow2(k) <= Pow2(n)
    ensures BitAnd(x, Pow2(n) - Pow2(k)) == x - LowBits(x, k)
  {
    if k == 0 {
      AndAllOnes(x, n);
    } else {
      Pow2Step(n);
      Pow2Step(k);
      HalfBelow(x, Pow2(n - 1));
      AndClearsLowBits(x / 2, n - 1, k - 1);
      ClearLowBitsStep(x, n, k);
    }
  }

  /** One bit of AndClearsLowBits: the claim for `x` follows from the claim for `x / 2` one bit narrower. */
  lemma ClearLowBitsStep(x: nat, n: nat, k: nat)
    requires 0 < k <= n && Pow2(k - 1) <= Pow2(n - 1)
    requires BitAnd(x / 2, Pow2(n - 1) - Pow2(k - 1)) == x / 2 - LowBits(x / 2, k - 1)
    ensures BitAnd(x, Pow2(n) - Pow2(k)) == x - LowBits(x, k)
  {
    var m := Pow2(n - 1) - Pow2(k - 1);
    var low := LowBits(x / 2, k - 1);
    Pow2Step(n);
    Pow2Step(k);
    calc {
      BitAnd(x, Pow2(n) - Pow2(k));
    ==
      BitAnd(x, 2 * m);
    == { BitAndEvenMask(x, m); }
      2 * BitAnd(x / 2, m);
    ==
      2 * (x / 2 - low);
    == { assert x == 2 * (x / 2) + x % 2; }
      x - (2 * low + x % 2);
    ==
      x - LowBits(x, k);
    }
  }

  lemma HalfBelow(x: nat, p: nat)
    requires x < 2 * p
    ensures x / 2 < p
  {
  }

  lemma Pow2Step(n: nat)
    requires n > 0
    ensures Pow2(n) == 2 * Pow2(n - 1)
  {
  }

  /** Masking with an even mask drops the lowest bit and masks the rest with the halved mask. */
  lemma BitAndEvenMask(x: nat, m: nat)
    ensures BitAnd(x, 2 * m) == 2 * BitAnd(x / 2, m)
  {
    if x != 0 && m != 0 {
      assert (2 * m) / 2 == m && (2 * m) % 2 == 0;
    }
  }

  lemma {:induction false} LowBitsOfSmall(x: nat, k: nat)
    requires x < Pow2(k)
    ensures LowBits(x, k) == x
  {
    if k > 0 {
      LowBitsOfSmall(x / 2, k - 1);
    }
  }

  lemma ModDouble2(y: nat)
    ensures y % 4 == 2 * ((y / 2) % 2) + y % 2
  {
  }

  lemma ModDouble4(y: nat)
    ensures y % 8 == 2 * ((y / 2) % 4) + y % 2
  {
  }

  lemma ModDouble8(y: nat)
    ensures y % 16 == 2 * ((y / 2) % 8) + y % 2
  {
  }

  lemma ModDouble16(y: nat)
    ensures y % 32 == 2 * ((y / 2) % 16) + y % 2
  {
  }

  lemma ModDouble32(y: nat)
    ensures y % 64 == 2 * ((y / 2) % 32) + y % 2
  {
  }

  lemma LowSixBits(x: nat)
    ensures LowBits(x, 6) == x % 64
  {
    assert x / 2 / 2 == x / 4 && x / 4 / 2 == x / 8 && x / 8 / 2 == x / 16 && x / 16 / 2 == x / 32;
    assert LowBits(x / 32, 1) == (x / 32) % 2;
    ModDouble2(x / 16);
    assert LowBits(x / 16, 2) == (x / 16) % 4;
    ModDouble4(x / 8);
    assert LowBits(x / 8, 3) == (x / 8) % 8;
    ModDouble8(x / 4);
    assert LowBits(x / 4, 4) == (x / 4) % 16;
    ModDouble16(x / 2);
    assert LowBits(x / 2, 5) == (x / 2) % 32;
    ModDouble32(x);
  }

  lemma WordIsPow2()
    ensures Pow2(32) == Word && Pow2(6) == 64
  {
    assert Pow2(4) == 16;
    assert Pow2(6) == 64;
    assert Pow2(8) == 256;
    assert Pow2(12) == 4096;
    assert Pow2(16) == 65536;
    assert Pow2(20) == 1048576;
    assert Pow2(24) == 16777216;
    assert Pow2(28) == 268435456;
  }

  /** `uint32` subtraction, wrapping below zero. */
  function Sub32(x: nat, y: nat): (r: nat)
    ensures r < Word
  {
    (x - y) % Word
  }

  /** `uint32` addition, wrapping at `2^32`. */
  function Add32(x: nat, y: nat): (r: nat)
    ensures r < Word
  {
    (x + y) % Word
  }

  /** `uint32` bitwise complement. */
  function Not32(x: nat): nat
    requires x < Word
  {
    Word - 1 - x
  }

  /** `((Stride - 1) & ~(Alignment - 1)) + Alignment` on `uint32`. */
  function AlignUp(stride: nat, alignment: nat): nat
    requires stride < Word && 1 <= alignment < Word
  {
    Add32(BitAnd(Sub32(stride, 1), Not32(Sub32(alignment, 1))), alignment)
  }

  /** Masking with all 32 bits set keeps a 32-bit value. */
  lemma AndWordMask(y: nat)
    requires y < Word
    ensures BitAnd(y, Word - 1) == y
  {
    WordIsPow2();
    AndClearsLowBits(y, 32, 0);
  }

  /** Masking with `~63` clears the six low bits. */
  lemma AndSixtyFourMask(y: nat)
    requires y < Word
    ensures BitAnd(y, Word - 64) == y - y % 64
  {
    WordIsPow2();
    AndClearsLowBits(y, 32, 6);
    LowSixBits(y);
  }

  /** With an alignment of one the bit trick gives back the stride, zero included. */
  lemma AlignUpByOne(stride: nat)
    requires stride < Word
    ensures AlignUp(stride, 1) == stride
  {
    var y := Sub32(stride, 1);
    assert BitAnd(y, Not32(Sub32(1, 1))) == y by {
      assert Not32(Sub32(1, 1)) == Word - 1;
      AndWordMask(y);
    }
    assert AlignUp(stride, 1) == Add32(y, 1);
    if stride == 0 {
      assert y == Word - 1;
    } else {
      assert y == stride - 1;
    }
  }

  /** With an alignment of 64 a zero stride wraps round to a zero pitch. */
  lemma AlignUpOfZero(stride: nat)
    requires stride == 0
    ensures AlignUp(stride, 64) == 0
  {
    var y := Sub32(stride, 1);
    assert BitAnd(y, Not32(Sub32(64, 1))) == Word - 64 by {
      assert y == Word - 1;
      assert Not32(Sub32(64, 1)) == Word - 64;
      AndSixtyFourMask(y);
    }
  }

  /** With an alignment of 64 a nonzero stride is rounded up to the next multiple of 64. */
  lemma AlignUpBySixtyFour(stride: nat)
    requires 1 <= stride <= MaxStride
    ensures AlignUp(stride, 64) == (stride - 1) - (stride - 1) % 64 + 64
  {
    var y := Sub32(stride, 1);
    assert BitAnd(y, Not32(Sub32(64, 1))) == y - y % 64 by {
      assert Not32(Sub32(64, 1)) == Word - 64;
      AndSixtyFourMask(y);
    }
    assert y == stride - 1;
  }

  /** The row pitch of the staging buffer for a row of `stride` bytes. */
  function AlignedStride(stride: nat, isMac: bool): nat
    requires stride <= MaxStride
  {
    AlignUp(stride, Alignment(isMac))
  }

  /** The pitch holds the row and wastes less than one alignment unit; on Mac it is the stride. */
  lemma AlignedStrideBounds(stride: nat, isMac: bool)
    requires stride <= MaxStride
    ensures var r := AlignedStride(stride, isMac);
      stride <= r < stride + Alignment(isMac) && (isMac ==> r == stride)
  {
    if isMac {
      AlignUpByOne(stride);
    } else if stride == 0 {
      AlignUpOfZero(stride);
    } else {
      AlignUpBySixtyFour(stride);
    }
  }

  /**
   * The pitch is the least multiple of the alignment that holds the row: on Mac the
   * stride itself, elsewhere the stride rounded up to 64, with a zero stride giving zero.
   */
  lemma AlignedStrideIsLeastMultiple(stride: nat, isMac: bool)
    requires stride <= MaxStride
    ensures isMac ==> AlignedStride(stride, isMac) == stride
    ensures !isMac ==> var r := AlignedStride(stride, isMac);
      r % 64 == 0 && stride <= r < stride + 64 &&
      (forall m: nat :: m % 64 == 0 && stride <= m ==> r <= m)
    ensures stride == 0 ==> AlignedStride(stride, isMac) == 0
  {
    if isMac {
      AlignUpByOne(stride);
    } else if stride == 0 {
      AlignUpOfZero(stride);
    } else {
      AlignUpBySixtyFour(stride);
      RoundedUpIsLeast(stride - 1, AlignedStride(stride, isMac));
    }
  }

  lemma RoundedUpIsLeast(y: nat, r: nat)
    requires r == y - y % 64 + 64
    ensures r % 64 == 0 && y < r <= y + 64
    ensures forall m: nat :: m % 64 == 0 && y < m ==> r <= m
  {
    var q := y / 64;
    assert y - y % 64 == 64 * q;
    assert r == 64 * (q + 1);
    forall m: nat | m % 64 == 0 && y < m
      ensures r <= m
    {
      var q2 := m / 64;
      assert m == 64 * q2;
      assert 64 * q <= y < 64 * q2;
    }
  }

  /** Where a readback row starts and how far the staging buffer reaches. */
  datatype SurfaceLayout = SurfaceLayout(stride: nat, pitch: nat, bytesPerImage: nat)

  /** Layout of a staging buffer copied from the texture with rows `AlignedStride` apart. */
  function PaddedLayout(bytesPerPixel: nat, sizeX: nat, sizeY: nat, isMac: bool): (l: SurfaceLayout)
    requires bytesPerPixel * sizeX <= MaxStride
    ensures l.stride == bytesPerPixel * sizeX
    ensures l.stride <= l.pitch < l.stride + Alignment(isMac)
    ensures l.pitch == AlignedStride(l.stride, isMac)
    ensures l.bytesPerImage == l.pitch * sizeY
  {
    AlignedStrideBounds(bytesPerPixel * sizeX, isMac);
    var stride := bytesPerPixel * sizeX;
    var pitch := AlignedStride(stride, isMac);
    SurfaceLayout(stride, pitch, ImageBytes(pitch, sizeY))
  }

  /** Bytes of `rows` rows `pitch` bytes apart. */
  function ImageBytes(pitch: nat, rows: nat): (n: nat)
    ensures n == pitch * rows
  {
    pitch * rows
  }

  /** Layout of the bytes fetched straight from the texture: rows tightly packed. */
  function TightLayout(bytesPerPixel: nat, sizeX: nat, sizeY: nat): (l: SurfaceLayout)
    ensures l.stride == l.pitch == bytesPerPixel * sizeX
    ensures l.bytesPerImage == l.stride * sizeY
  {
    SurfaceLayout(bytesPerPixel * sizeX, bytesPerPixel * sizeX, bytesPerPixel * sizeX * sizeY)
  }

  /** The surface formats the colour readback tells apart. */
  datatype SurfaceFormat = DepthStencil | ShadowDepth | OtherFormat

  /**
   * Layout the colour readback converts from: the texture's own bytes when the
   * `rhi.Metal.UseTexGetBytes` variable is set and the format is not a depth format,
   * a padded staging buffer otherwise, one byte per pixel when it reads stencil.
   */
  function ColorReadLayout(useTexGetBytes: int, format: SurfaceFormat, outputStencil: bool,
                           blockBytes: nat, sizeX: nat, sizeY: nat, isMac: bool): (l: SurfaceLayout)
    requires blockBytes * sizeX <= MaxStride && sizeX <= MaxStride
    ensures useTexGetBytes != 0 && format == OtherFormat ==> l == TightLayout(blockBytes, sizeX, sizeY)
    ensures useTexGetBytes == 0 || format == DepthStencil || format == ShadowDepth ==>
      var bytesPerPixel := if format == DepthStencil && outputStencil then 1 else blockBytes;
      l == PaddedLayout(bytesPerPixel, sizeX, sizeY, isMac) && l.stride == bytesPerPixel * sizeX
    ensures l.stride <= l.pitch && l.bytesPerImage == l.pitch * sizeY
  {
    if useTexGetBytes != 0 && format != DepthStencil && format != ShadowDepth then
      TightLayout(blockBytes, sizeX, sizeY)
    else
      var bytesPerPixel := if format != DepthStencil || !outputStencil then blockBytes else 1;
      PaddedLayout(bytesPerPixel, sizeX, sizeY, isMac)
  }

  /** Bytes of row `r` when rows start `pitch` bytes apart and `count` bytes of each are meant. */
  function Row(s: seq<bv8>, r: nat, pitch: nat, count: nat): seq<bv8>
    requires r * pitch + count <= |s|
  {
    s[r * pitch .. r * pitch + count]
  }

  /** Rows `lo..hi` of `out` hold the first `count` bytes of the same rows of `data`. */
  predicate RowsCopied(out: seq<bv8>, data: seq<bv8>, lo: nat, hi: nat, outPitch: nat, srcPitch: nat, count: nat) {
    forall r: nat :: lo <= r < hi ==> RowCopied(out, data, r, outPitch, srcPitch, count)
  }

  /** Row `r` of `out` holds the first `count` bytes of row `r` of `data`. */
  predicate RowCopied(out: seq<bv8>, data: seq<bv8>, r: nat, outPitch: nat, srcPitch: nat, count: nat) {
    r * outPitch + count <= |out| && r * srcPitch + count <= |data| &&
    Row(out, r, outPitch, count) == Row(data, r, srcPitch, count)
  }

  lemma MulStep(a: nat, p: nat)
    ensures (a + 1) * p == a * p + p
  {
  }

  lemma MulStrict(a: nat, b: nat, p: nat)
    requires a < b && p >= 1
    ensures a * p < b * p
  {
    MulMonotone(a + 1, b, p);
  }

  lemma OutputRows2D(sizeX: nat, sizeY: nat)
    ensures sizeX * sizeY * Float16ColorBytes == sizeY * (sizeX * Float16ColorBytes)
  {
  }

  lemma OutputRows3D(sizeX: nat, sizeY: nat, sizeZ: nat)
    ensures sizeX * sizeY * sizeZ * Float16ColorBytes == (sizeZ * sizeY) * (sizeX * Float16ColorBytes)
  {
  }

  lemma StagingRows3D(pitch: nat, sizeY: nat, sizeZ: nat)
    ensures pitch * sizeY * sizeZ == (sizeZ * sizeY) * pitch
  {
  }

  lemma MulMonotone(a: nat, b: nat, p: nat)
    requires a <= b
    ensures a * p <= b * p
  {
    assert b * p == a * p + (b - a) * p;
  }

  lemma SamePrefixSameRow(s: seq<bv8>, t: seq<bv8>, n: nat, r: nat, pitch: nat, count: nat)
    requires n <= |s| && n <= |t| && s[..n] == t[..n]
    requires r * pitch + count <= n
    ensures Row(s, r, pitch, count) == Row(t, r, pitch, count)
  {
    assert Row(s, r, pitch, count) == s[..n][r * pitch .. r * pitch + count];
    assert Row(t, r, pitch, count) == t[..n][r * pitch .. r * pitch + count];
  }

  lemma ShorterPrefix(s: seq<bv8>, t: seq<bv8>, m: nat, n: nat)
    requires m <= n <= |s| && n <= |t| && s[..n] == t[..n]
    ensures s[..m] == t[..m]
  {
    assert s[..m] == s[..n][..m];
    assert t[..m] == t[..n][..m];
  }

  lemma ShorterSuffix(s: seq<bv8>, t: seq<bv8>, m: nat, n: nat)
    requires m <= n <= |s| && |s| == |t| && s[m..] == t[m..]
    ensures s[n..] == t[n..]
  {
    assert s[n..] == s[m..][n - m..];
    assert t[n..] == t[m..][n - m..];
  }

  /** Rows already copied stay copied when a prefix covering them is kept. */
  lemma {:induction false} RowsCopiedKept(s: seq<bv8>, t: seq<bv8>, data: seq<bv8>, lo: nat, hi: nat,
                                          outPitch: nat, srcPitch: nat, count: nat)
    requires count <= outPitch
    requires hi * outPitch <= |s| && hi * outPitch <= |t| && s[..hi * outPitch] == t[..hi * outPitch]
    requires RowsCopied(t, data, lo, hi, outPitch, srcPitch, count)
    ensures RowsCopied(s, data, lo, hi, outPitch, srcPitch, count)
  {
    forall r: nat | lo <= r < hi
      ensures RowCopied(s, data, r, outPitch, srcPitch, count)
    {
      assert RowCopied(t, data, r, outPitch, srcPitch, count);
      MulStep(r, outPitch);
      MulMonotone(r + 1, hi, outPitch);
      SamePrefixSameRow(s, t, hi * outPitch, r, outPitch, count);
    }
  }

  /** `FMemory::Memcpy` of `count` bytes from `data[src..]` to `out[dst..]`. */
  method CopyBytes(out: array<bv8>, dst: nat, data: seq<bv8>, src: nat, count: nat)
    requires dst + count <= out.Length && src + count <= |data|
    modifies out
    ensures out[dst .. dst + count] == data[src .. src + count]
    ensures out[..dst] == old(out[..dst]) && out[dst + count..] == old(out[dst + count..])
  {
    for k := 0 to count
      invariant forall i :: dst <= i < dst + k ==> out[i] == data[src + (i - dst)]
      invariant forall i :: 0 <= i < out.Length && !(dst <= i < dst + k) ==> out[i] == old(out[i])
    {
      out[dst + k] := data[src + k];
    }
  }

  /**
   * The inner row loop of the float readbacks: for each of `rows` rows starting at
   * `firstRow`, copy `count` bytes, then advance the source by the padded pitch and
   * the output by one output row.
   */
  method CopyRows(out: array<bv8>, data: seq<bv8>, firstRow: nat, rows: nat,
                  outPitch: nat, srcPitch: nat, count: nat)
    requires count <= outPitch && count <= srcPitch
    requires (firstRow + rows) * outPitch <= out.Length && (firstRow + rows) * srcPitch <= |data|
    modifies out
    ensures RowsCopied(out[..], data, firstRow, firstRow + rows, outPitch, srcPitch, count)
    ensures out[..firstRow * outPitch] == old(out[..firstRow * outPitch])
    ensures out[(firstRow + rows) * outPitch..] == old(out[(firstRow + rows) * outPitch..])
  {
    var dataPtr := firstRow * srcPitch;
    var outDataPtr := firstRow * outPitch;
    for row := 0 to rows
      invariant dataPtr == (firstRow + row) * srcPitch && outDataPtr == (firstRow + row) * outPitch
      invariant RowsCopied(out[..], data, firstRow, firstRow + row, outPitch, srcPitch, count)
      invariant out[..firstRow * outPitch] == old(out[..firstRow * outPitch])
      invariant out[(firstRow + rows) * outPitch..] == old(out[(firstRow + rows) * outPitch..])
    {
      CopyRow(out, data, firstRow, firstRow + rows, firstRow + row, outPitch, srcPitch, count, outDataPtr, dataPtr);
      MulStep(firstRow + row, outPitch);
      MulStep(firstRow + row, srcPitch);
      dataPtr := dataPtr + srcPitch;
      outDataPtr := outDataPtr + outPitch;
    }
  }

  /** One pass of the row loop: row `r` is copied, rows `lo..r` and everything outside `lo..hi` kept. */
  method CopyRow(out: array<bv8>, data: seq<bv8>, lo: nat, hi: nat, r: nat,
                 outPitch: nat, srcPitch: nat, count: nat, outDataPtr: nat, dataPtr: nat)
    requires lo <= r < hi
    requires count <= outPitch && count <= srcPitch
    requires hi * outPitch <= out.Length && hi * srcPitch <= |data|
    requires dataPtr == r * srcPitch && outDataPtr == r * outPitch
    requires RowsCopied(out[..], data, lo, r, outPitch, srcPitch, count)
    modifies out
    ensures RowsCopied(out[..], data, lo, r + 1, outPitch, srcPitch, count)
    ensures out[..lo * outPitch] == old(out[..lo * outPitch])
    ensures out[hi * outPitch..] == old(out[hi * outPitch..])
  {
    RowFits(r, hi, outPitch, count);
    RowFits(r, hi, srcPitch, count);
    ghost var before := out[..];
    CopyBytes(out, outDataPtr, data, dataPtr, count);
    ghost var after := out[..];
    assert after[..outDataPtr] == before[..outDataPtr];
    assert after[outDataPtr .. outDataPtr + count] == data[dataPtr .. dataPtr + count];
    assert after[outDataPtr + count..] == before[outDataPtr + count..];
    RowStep(after, before, data, lo, hi, r, outPitch, srcPitch, count);
  }

  lemma RowFits(r: nat, hi: nat, pitch: nat, count: nat)
    requires r < hi && count <= pitch
    ensures r * pitch + count <= hi * pitch
  {
    MulStep(r, pitch);
    MulMonotone(r + 1, hi, pitch);
  }

  /** What one row copy leaves behind, stated on the array contents before and after. */
  lemma RowStep(after: seq<bv8>, before: seq<bv8>, data: seq<bv8>, lo: nat, hi: nat, r: nat,
                outPitch: nat, srcPitch: nat, count: nat)
    requires lo <= r < hi && count <= outPitch
    requires |after| == |before| && hi * outPitch <= |before|
    requires r * outPitch + count <= hi * outPitch && r * srcPitch + count <= |data|
    requires after[..r * outPitch] == before[..r * outPitch]
    requires after[r * outPitch .. r * outPitch + count] == data[r * srcPitch .. r * srcPitch + count]
    requires after[r * outPitch + count..] == before[r * outPitch + count..]
    requires RowsCopied(before, data, lo, r, outPitch, srcPitch, count)
    ensures RowsCopied(after, data, lo, r + 1, outPitch, srcPitch, count)
    ensures after[..lo * outPitch] == before[..lo * outPitch]
    ensures after[hi * outPitch..] == before[hi * outPitch..]
  {
    assert after[..lo * outPitch] == before[..lo * outPitch] by {
      MulMonotone(lo, r, outPitch);
      ShorterPrefix(after, before, lo * outPitch, r * outPitch);
    }
    assert after[hi * outPitch..] == before[hi * outPitch..] by {
      ShorterSuffix(after, before, r * outPitch + count, hi * outPitch);
    }
    RowsCopiedKept(after, before, data, lo, r, outPitch, srcPitch, count);
    assert Row(after, r, outPitch, count) == Row(data, r, srcPitch, count);
  }

  /** Bytes of each output row that are filled: the source stride, kept inside the output row. */
  function RowCopyBytes(stride: nat, sizeX: nat): (n: nat)
    ensures n <= stride && n <= sizeX * Float16ColorBytes
    ensures stride <= sizeX * Float16ColorBytes ==> n == stride
  {
    if stride <= sizeX * Float16ColorBytes then stride else sizeX * Float16ColorBytes
  }

  /** A contiguous copy of equally pitched rows copies every row. */
  lemma {:induction false} ContiguousCopyCopiesRows(out: seq<bv8>, data: seq<bv8>, rows: nat, pitch: nat)
    requires rows * pitch <= |out| && rows * pitch <= |data|
    requires out[..rows * pitch] == data[..rows * pitch]
    ensures RowsCopied(out, data, 0, rows, pitch, pitch, pitch)
  {
    forall r: nat | r < rows
      ensures RowCopied(out, data, r, pitch, pitch, pitch)
    {
      MulStep(r, pitch);
      MulMonotone(r + 1, rows, pitch);
      SamePrefixSameRow(out, data, rows * pitch, r, pitch, pitch);
    }
  }

  /** For FloatRGBA the whole output row is filled, and on Mac the staging rows are exactly output rows. */
  lemma FloatRGBALayout(sizeX: nat, sizeY: nat, isMac: bool)
    requires Float16ColorBytes * sizeX <= MaxStride
    ensures var l := PaddedLayout(Float16ColorBytes, sizeX, sizeY, isMac);
      RowCopyBytes(l.stride, sizeX) == sizeX * Float16ColorBytes &&
      (isMac ==> l.pitch == sizeX * Float16ColorBytes && l.bytesPerImage == sizeY * l.pitch)
  {
    var l := PaddedLayout(Float16ColorBytes, sizeX, sizeY, isMac);
    AlignedStrideBounds(l.stride, isMac);
  }

  /** The Mac path: one copy of the staging buffer, clipped to the output. */
  method CopyPackedBuffer(out: array<bv8>, data: seq<bv8>, rows: nat, outPitch: nat, pitch: nat)
    modifies out
    ensures var n := if |data| <= out.Length then |data| else out.Length;
      out[..n] == data[..n]
    ensures pitch == outPitch && |data| == rows * pitch && out.Length == rows * outPitch ==>
      RowsCopied(out[..], data, 0, rows, outPitch, pitch, outPitch)
  {
    var n := if |data| <= out.Length then |data| else out.Length;
    CopyBytes(out, 0, data, 0, n);
    assert out[..n] == data[..n];
    if pitch == outPitch && |data| == rows * pitch && out.Length == rows * outPitch {
      ContiguousCopyCopiesRows(out[..], data, rows, outPitch);
    }
  }

  /** The nested slice and row loops of the 3D readback, the row pointers running on across slices. */
  method CopyPaddedSlices(out: array<bv8>, data: seq<bv8>, sizeZ: nat, sizeY: nat,
                          outPitch: nat, pitch: nat, count: nat)
    requires count <= outPitch && count <= pitch
    requires out.Length == (sizeZ * sizeY) * outPitch && |data| == (sizeZ * sizeY) * pitch
    modifies out
    ensures RowsCopied(out[..], data, 0, sizeZ * sizeY, outPitch, pitch, count)
  {
    for image := 0 to sizeZ
      invariant RowsCopied(out[..], data, 0, image * sizeY, outPitch, pitch, count)
    {
      MulStep(image, sizeY);
      MulMonotone(image + 1, sizeZ, sizeY);
      MulMonotone((image + 1) * sizeY, sizeZ * sizeY, outPitch);
      MulMonotone((image + 1) * sizeY, sizeZ * sizeY, pitch);
      ghost var before := out[..];
      CopyRows(out, data, image * sizeY, sizeY, outPitch, pitch, count);
      RowsCopiedKept(out[..], before, data, 0, image * sizeY, outPitch, pitch, count);
    }
  }

  /**
   * `RHIReadSurfaceFloatData` after the texture has been copied to the staging buffer
   * `data`. With no texture nothing is read. Otherwise the output holds `SizeX*SizeY`
   * pixels; on 64-byte aligned platforms each output row receives the first bytes of
   * the padded source row, on Mac the buffer is copied in one piece.
   */
  method ReadSurfaceFloatData(hasTexture: bool, data: seq<bv8>, blockBytes: nat, sizeX: nat, sizeY: nat, isMac: bool)
    returns (out: Option<array<bv8>>)
    requires blockBytes * sizeX <= MaxStride
    requires |data| == PaddedLayout(blockBytes, sizeX, sizeY, isMac).bytesPerImage
    ensures out.Some? <==> hasTexture
    ensures out.Some? ==> out.value.Length == sizeX * sizeY * Float16ColorBytes
    ensures out.Some? && !isMac ==>
      var l := PaddedLayout(blockBytes, sizeX, sizeY, isMac);
      RowsCopied(out.value[..], data, 0, sizeY, sizeX * Float16ColorBytes, l.pitch, RowCopyBytes(l.stride, sizeX))
    ensures out.Some? && isMac ==>
      var n := if |data| <= out.value.Length then |data| else out.value.Length;
      out.value[..n] == data[..n]
    ensures out.Some? && blockBytes == Float16ColorBytes ==>
      var l := PaddedLayout(blockBytes, sizeX, sizeY, isMac);
      RowsCopied(out.value[..], data, 0, sizeY, sizeX * Float16ColorBytes, l.pitch, sizeX * Float16ColorBytes)
  {
    if !hasTexture {
      return None;
    }
    var outData;
    if Alignment(isMac) > 1 {
      outData := ReadPaddedRows(data, blockBytes, sizeX, sizeY, isMac);
    } else {
      outData := ReadPackedRows(data, blockBytes, sizeX, sizeY, 1, isMac);
    }
    return Some(outData);
  }

  /** The row loop of the 2D float readback on 64-byte aligned platforms. */
  method ReadPaddedRows(data: seq<bv8>, blockBytes: nat, sizeX: nat, sizeY: nat, isMac: bool)
    returns (outData: array<bv8>)
    requires !isMac && blockBytes * sizeX <= MaxStride
    requires |data| == PaddedLayout(blockBytes, sizeX, sizeY, isMac).bytesPerImage
    ensures outData.Length == sizeX * sizeY * Float16ColorBytes
    ensures var l := PaddedLayout(blockBytes, sizeX, sizeY, isMac);
      RowsCopied(outData[..], data, 0, sizeY, sizeX * Float16ColorBytes, l.pitch, RowCopyBytes(l.stride, sizeX))
    ensures blockBytes == Float16ColorBytes ==>
      var l := PaddedLayout(blockBytes, sizeX, sizeY, isMac);
      RowsCopied(outData[..], data, 0, sizeY, sizeX * Float16ColorBytes, l.pitch, sizeX * Float16ColorBytes)
  {
    var l := PaddedLayout(blockBytes, sizeX, sizeY, isMac);
    var outPitch: nat := sizeX * Float16ColorBytes;
    outData := new bv8[sizeY * outPitch];
    PaddedRowsFit(blockBytes, sizeX, sizeY, sizeY, isMac);
    CopyRows(outData, data, 0, sizeY, outPitch, l.pitch, RowCopyBytes(l.stride, sizeX));
  }

  /**
   * The padded float readbacks fit: `rows` output rows make the output array, `rows` pitches
   * make the staging buffer, and the bytes copied per row fit both rows (all of the output row
   * for FloatRGBA).
   */
  lemma PaddedRowsFit(blockBytes: nat, sizeX: nat, sizeY: nat, rows: nat, isMac: bool)
    requires blockBytes * sizeX <= MaxStride
    ensures var l := PaddedLayout(blockBytes, sizeX, sizeY, isMac);
      var count := RowCopyBytes(l.stride, sizeX);
      count <= sizeX * Float16ColorBytes && count <= l.pitch
      && (0 + rows) * (sizeX * Float16ColorBytes) == sizeX * rows * Float16ColorBytes
      && rows * (sizeX * Float16ColorBytes) == sizeX * rows * Float16ColorBytes
      && (0 + rows) * l.pitch == l.pitch * rows
      && (blockBytes == Float16ColorBytes ==> count == sizeX * Float16ColorBytes)
  {
    var l := PaddedLayout(blockBytes, sizeX, sizeY, isMac);
    OutputRows2D(sizeX, rows);
    if blockBytes == Float16ColorBytes {
      FloatRGBALayout(sizeX, sizeY, isMac);
    }
  }

  /**
   * The Mac branch of both float readbacks: `images` images of `SizeY` rows copied in
   * one piece, which for FloatRGBA puts every source row in its output row.
   */
  method ReadPackedRows(data: seq<bv8>, blockBytes: nat, sizeX: nat, sizeY: nat, images: nat, isMac: bool)
    returns (outData: array<bv8>)
    requires isMac && blockBytes * sizeX <= MaxStride
    requires |data| == PaddedLayout(blockBytes, sizeX, sizeY, isMac).bytesPerImage * images
    ensures outData.Length == sizeX * sizeY * images * Float16ColorBytes
    ensures var n := if |data| <= outData.Length then |data| else outData.Length;
      outData[..n] == data[..n]
    ensures blockBytes == Float16ColorBytes ==>
      var l := PaddedLayout(blockBytes, sizeX, sizeY, isMac);
      RowsCopied(outData[..], data, 0, images * sizeY, sizeX * Float16ColorBytes, l.pitch, sizeX * Float16ColorBytes)
  {
    var l := PaddedLayout(blockBytes, sizeX, sizeY, isMac);
    var outPitch: nat := sizeX * Float16ColorBytes;
    var rows: nat := images * sizeY;
    OutputRows3D(sizeX, sizeY, images);
    StagingRows3D(l.pitch, sizeY, images);
    if blockBytes == Float16ColorBytes {
      FloatRGBALayout(sizeX, sizeY, isMac);
    }
    outData := new bv8[rows * outPitch];
    CopyPackedBuffer(outData, data, rows, outPitch, l.pitch);
  }

  /**
   * `RHIRead3DSurfaceFloatData`: `SizeZ` slices of `SizeY` rows, each slice `BytesPerImage`
   * bytes of the staging buffer; row `Row` of slice `Image` is output row `Image*SizeY + Row`.
   */
  method Read3DSurfaceFloatData(hasTexture: bool, data: seq<bv8>, blockBytes: nat,
                                sizeX: nat, sizeY: nat, sizeZ: nat, isMac: bool)
    returns (out: Option<array<bv8>>)
    requires blockBytes * sizeX <= MaxStride
    requires |data| == PaddedLayout(blockBytes, sizeX, sizeY, isMac).bytesPerImage * sizeZ
    ensures out.Some? <==> hasTexture
    ensures out.Some? ==> out.value.Length == sizeX * sizeY * sizeZ * Float16ColorBytes
    ensures out.Some? && !isMac ==>
      var l := PaddedLayout(blockBytes, sizeX, sizeY, isMac);
      RowsCopied(out.value[..], data, 0, sizeZ * sizeY, sizeX * Float16ColorBytes, l.pitch, RowCopyBytes(l.stride, sizeX))
    ensures out.Some? && isMac ==>
      var n := if |data| <= out.value.Length then |data| else out.value.Length;
      out.value[..n] == data[..n]
    ensures out.Some? && blockBytes == Float16ColorBytes ==>
      var l := PaddedLayout(blockBytes, sizeX, sizeY, isMac);
      RowsCopied(out.value[..], data, 0, sizeZ * sizeY, sizeX * Float16ColorBytes, l.pitch, sizeX * Float16ColorBytes)
  {
    if !hasTexture {
      return None;
    }
    var outData;
    if Alignment(isMac) > 1 {
      outData := ReadPaddedSlices(data, blockBytes, sizeX, sizeY, sizeZ, isMac);
    } else {
      outData := ReadPackedRows(data, blockBytes, sizeX, sizeY, sizeZ, isMac);
    }
    return Some(outData);
  }

  /** The nested slice and row loops of the 3D float readback on 64-byte aligned platforms. */
  method ReadPaddedSlices(data: seq<bv8>, blockBytes: nat, sizeX: nat, sizeY: nat, sizeZ: nat, isMac: bool)
    returns (outData: array<bv8>)
    requires !isMac && blockBytes * sizeX <= MaxStride
    requires |data| == PaddedLayout(blockBytes, sizeX, sizeY, isMac).bytesPerImage * sizeZ
    ensures var l := PaddedLayout(blockBytes, sizeX, sizeY, isMac);
      RowsCopied(outData[..], data, 0, sizeZ * sizeY, sizeX * Float16ColorBytes, l.pitch, RowCopyBytes(l.stride, sizeX))
    ensures blockBytes == Float16ColorBytes ==>
      var l := PaddedLayout(blockBytes, sizeX, sizeY, isMac);
      RowsCopied(outData[..], data, 0, sizeZ * sizeY, sizeX * Float16ColorBytes, l.pitch, sizeX * Float16ColorBytes)
    ensures outData.Length == sizeX * sizeY * sizeZ * Float16ColorBytes
  {
    var l := PaddedLayout(blockBytes, sizeX, sizeY, isMac);
    var outPitch: nat := sizeX * Float16ColorBytes;
    var rows: nat := sizeZ * sizeY;
    outData := new bv8[rows * outPitch];
    PaddedSlicesFit(blockBytes, sizeX, sizeY, sizeZ, isMac);
    CopyPaddedSlices(outData, data, sizeZ, sizeY, outPitch, l.pitch, RowCopyBytes(l.stride, sizeX));
  }

  /** The 3D padded readback fits: `sizeZ` slices of `sizeY` rows make both the output and the staging buffer. */
  lemma PaddedSlicesFit(blockBytes: nat, sizeX: nat, sizeY: nat, sizeZ: nat, isMac: bool)
    requires blockBytes * sizeX <= MaxStride
    ensures var l := PaddedLayout(blockBytes, sizeX, sizeY, isMac);
      var count := RowCopyBytes(l.stride, sizeX);
      count <= sizeX * Float16ColorBytes && count <= l.pitch
      && sizeX * sizeY * sizeZ * Float16ColorBytes == (sizeZ * sizeY) * (sizeX * Float16ColorBytes)
      && l.bytesPerImage * sizeZ == (sizeZ * sizeY) * l.pitch
      && (blockBytes == Float16ColorBytes ==> count == sizeX * Float16ColorBytes)
  {
    var l := PaddedLayout(blockBytes, sizeX, sizeY, isMac);
    OutputRows3D(sizeX, sizeY, sizeZ);
    StagingRows3D(l.pitch, sizeY, sizeZ);
    if blockBytes == Float16ColorBytes {
      FloatRGBALayout(sizeX, sizeY, isMac);
    }
  }

  /** The colour readback with no texture: `SizeX*SizeY` pixels, all zero. */
  method ReadSurfaceDataWithoutTexture(sizeX: nat, sizeY: nat) returns (out: array<bv32>)
    ensures out.Length == sizeX * sizeY
    ensures forall i :: 0 <= i < out.Length ==> out[i] == 0
  {
    out := new bv32[sizeX * sizeY];
    for i := 0 to out.Length
      invariant forall j :: 0 <= j < i ==> out[j] == 0
    {
      out[i] := 0;
    }
  }

  /**
   * One past the last output byte the float readback writes as the code stands:
   * `Stride` bytes per row at output rows `SizeX` pixels apart, or one copy of the
   * whole staging buffer on Mac.
   */
  function FloatCopyEndAsWritten(blockBytes: nat, sizeX: nat, sizeY: nat, isMac: bool): (end: nat)
    requires blockBytes * sizeX <= MaxStride
    ensures sizeY == 0 ==> end == 0
    ensures sizeY >= 1 ==> end >= blockBytes * sizeX
  {
    var l := PaddedLayout(blockBytes, sizeX, sizeY, isMac);
    if sizeY == 0 then 0
    else if isMac then MulMonotone(1, sizeY, l.pitch); l.bytesPerImage
    else RowOffset(sizeY - 1, sizeX) + l.stride
  }

  /** Output byte where row `rows` starts. */
  function RowOffset(rows: nat, sizeX: nat): nat {
    rows * (sizeX * Float16ColorBytes)
  }

  /** A non-FloatRGBA surface with wider pixels is read past the end of the output array. */
  lemma WideFormatOverrunsOutput(blockBytes: nat, sizeX: nat, sizeY: nat, isMac: bool)
    requires blockBytes * sizeX <= MaxStride
    requires blockBytes > Float16ColorBytes && sizeX >= 1 && sizeY >= 1
    ensures FloatCopyEndAsWritten(blockBytes, sizeX, sizeY, isMac) > sizeX * sizeY * Float16ColorBytes
  {
    var l := PaddedLayout(blockBytes, sizeX, sizeY, isMac);
    var outPitch := sizeX * Float16ColorBytes;
    MulStrict(Float16ColorBytes, blockBytes, sizeX);
    assert l.stride > outPitch;
    OutputRows2D(sizeX, sizeY);
    if isMac {
      AlignedStrideBounds(l.stride, isMac);
      MulStrict(outPitch, l.stride, sizeY);
      assert l.bytesPerImage == l.stride * sizeY;
    } else {
      MulStep(sizeY - 1, outPitch);
    }
  }

  /** The smallest case: one 16-byte pixel written into an 8-byte output. */
  lemma OneWidePixelOverruns()
    ensures FloatCopyEndAsWritten(16, 1, 1, false) == 16 > 1 * 1 * Float16ColorBytes
  {
    AlignUpBySixtyFour(16);
  }
}
