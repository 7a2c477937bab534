/** How much of a mapping is provably part of the image: the arithmetic of `mapped_len` and of pixel buffers. */
module Extents {
  import opened Wrappers

  const I32_MAX := 0x7fff_ffff
  const U64_MODULUS := 0x1_0000_0000_0000_0000

  // A pixel format by the four characters of its code.
  type FourCc = string

  const ABGR8888: FourCc := "AB24"

  datatype Block = Block(bytes: nat, pixels: nat)

  // wlroots' table of pixel formats, by block size.
  const ONE_BYTE: set<FourCc> := {"R8  "}
  const TWO_BYTES: set<FourCc> := {"R  H", "GR88", "RX12", "RA12", "BX12", "BA12", "RX15", "RA15", "BX15", "BA15",
                                   "XR15", "AR15", "RG16", "BG16"}
  const THREE_BYTES: set<FourCc> := {"RG24", "BG24"}
  const FOUR_BYTES: set<FourCc> := {"XR24", "AR24", "XB24", "AB24", "RX24", "RA24", "BX24", "BA24", "R  F", "GR H",
                                    "XR30", "AR30", "XB30", "AB30"}
  const SIX_BYTES: set<FourCc> := {"BG48", "BGRH"}
  const EIGHT_BYTES: set<FourCc> := {"GR F", "XB4H", "AB4H", "XB48", "AB48"}
  const TWELVE_BYTES: set<FourCc> := {"BGRF"}
  const SIXTEEN_BYTES: set<FourCc> := {"AB8F"}
  const SUBSAMPLED: set<FourCc> := {"YVYU", "VYUY"}

  function BlockOf(format: FourCc): (b: Option<Block>)
    ensures b.Some? ==> 1 <= b.value.bytes <= 16 && (b.value.pixels == 1 || b.value == Block(4, 2))
  {
    if format in FOUR_BYTES then Some(Block(4, 1))
    else if format in TWO_BYTES then Some(Block(2, 1))
    else if format in EIGHT_BYTES then Some(Block(8, 1))
    else if format in THREE_BYTES then Some(Block(3, 1))
    else if format in SIX_BYTES then Some(Block(6, 1))
    else if format in ONE_BYTE then Some(Block(1, 1))
    else if format in TWELVE_BYTES then Some(Block(12, 1))
    else if format in SIXTEEN_BYTES then Some(Block(16, 1))
    else if format in SUBSAMPLED then Some(Block(4, 2))
    else None
  }

  /** No format is in two classes: the block of a format is that of its class, and a format in none has no block. */
  lemma BlockIff(format: FourCc, bytes: nat)
    ensures BlockOf(format) == Some(Block(bytes, 1)) <==>
            || (bytes == 1 && format in ONE_BYTE) || (bytes == 2 && format in TWO_BYTES)
            || (bytes == 3 && format in THREE_BYTES) || (bytes == 4 && format in FOUR_BYTES)
            || (bytes == 6 && format in SIX_BYTES) || (bytes == 8 && format in EIGHT_BYTES)
            || (bytes == 12 && format in TWELVE_BYTES) || (bytes == 16 && format in SIXTEEN_BYTES)
    ensures BlockOf(format) == Some(Block(4, 2)) <==> format in SUBSAMPLED
  {
  }

  function SaturatingMul(a: nat, b: nat): nat {
    if a * b < U64_MODULUS then a * b else U64_MODULUS - 1
  }

  function DivCeil(a: nat, b: nat): nat
    requires b > 0
  {
    if a % b == 0 then a / b else a / b + 1
  }

  // `min_stride`, in 64-bit arithmetic.
  function MinStride(format: FourCc, width: nat): Option<nat> {
    match BlockOf(format)
    case None => None
    case Some(block) => Some(DivCeil(SaturatingMul(width, block.bytes), block.pixels))
  }

  // `checked_mul` and `checked_add` on a word whose largest value is `max`.
  function CheckedMul(a: nat, b: nat, max: nat): Option<nat> {
    if a * b <= max then Some(a * b) else None
  }

  function CheckedAdd(a: nat, b: nat, max: nat): Option<nat> {
    if a + b <= max then Some(a + b) else None
  }

  function LastRowEnd(row: nat, height: nat, stride: nat, max: nat): Option<nat>
    requires height >= 1
  {
    if row > max || row > stride then None
    else
      match CheckedMul(stride, height - 1, max)
      case None => None
      case Some(above) => CheckedAdd(above, row, max)
  }

  // `mapped_len`; `max` is the largest `usize`.
  function MappedLen(format: FourCc, width: int, height: int, stride: nat, max: nat): Option<nat> {
    if width < 0 || height < 0 then None
    else if height == 0 then Some(0)
    else
      match MinStride(format, width)
      case None => None
      case Some(row) => LastRowEnd(row, height, stride, max)
  }

  // The bytes of one row: the least whole number that holds `width` pixels.
  ghost predicate HoldsRow(format: FourCc, width: nat, row: nat) {
    && BlockOf(format).Some?
    && var block := BlockOf(format).value;
       row * block.pixels >= width * block.bytes && (row > 0 ==> (row - 1) * block.pixels < width * block.bytes)
  }

  lemma DivCeilIsCeiling(a: nat, b: nat)
    requires 1 <= b <= 2
    ensures DivCeil(a, b) * b >= a && (DivCeil(a, b) > 0 ==> (DivCeil(a, b) - 1) * b < a)
  {
  }

  // No width a buffer can have saturates the row length.
  lemma RowIsExact(format: FourCc, width: nat)
    requires width <= I32_MAX
    ensures match MinStride(format, width)
            case None => BlockOf(format).None?
            case Some(row) => HoldsRow(format, width, row)
  {
    match BlockOf(format)
    case None =>
    case Some(block) =>
      assert width * block.bytes <= I32_MAX * 16 by {
        ProductLe(width, block.bytes, I32_MAX, 16);
      }
      DivCeilIsCeiling(width * block.bytes, block.pixels);
  }

  lemma ProductLe(a: nat, b: nat, c: nat, d: nat)
    requires a <= c && b <= d
    ensures a * b <= c * d
  {
    assert a * b <= c * b <= c * d;
  }

  lemma RowsApart(stride: nat, row: nat, y: nat, z: nat)
    requires row <= stride && y < z
    ensures y * stride + row <= z * stride
  {
    assert (y + 1) * stride == y * stride + stride;
    ProductLe(y + 1, stride, z, stride);
  }

  lemma RowsInExtent(stride: nat, row: nat, height: nat)
    requires row <= stride && height >= 1
    ensures forall y: nat :: y < height ==> y * stride + row <= (height - 1) * stride + row
    ensures forall y: nat, z: nat :: y < z < height ==> y * stride + row <= z * stride
  {
    forall y: nat | y < height ensures y * stride + row <= (height - 1) * stride + row {
      ProductLe(y, stride, height - 1, stride);
    }
    forall y: nat, z: nat | y < z < height ensures y * stride + row <= z * stride {
      RowsApart(stride, row, y, z);
    }
  }

  lemma LastRowEndIff(row: nat, height: nat, stride: nat, max: nat)
    requires height >= 1
    ensures LastRowEnd(row, height, stride, max) ==
            if row <= stride && stride * (height - 1) + row <= max then Some(stride * (height - 1) + row) else None
  {
    if height > 1 {
      ProductLe(stride, 1, stride, height - 1);
    }
  }

  lemma MappedIff(format: FourCc, width: nat, height: nat, stride: nat, max: nat, row: nat)
    requires width <= I32_MAX && 1 <= height && HoldsRow(format, width, row)
    ensures MappedLen(format, width, height, stride, max) ==
            if row <= stride && stride * (height - 1) + row <= max then Some(stride * (height - 1) + row) else None
  {
    RowIsExact(format, width);
    SameRow(format, width, row, MinStride(format, width).value);
    LastRowEndIff(row, height, stride, max);
  }

  /** A mapping is granted exactly when no size is negative and, unless the image is empty, its format is known, a row
      fits in the stride and the extent fits in a word.  The rows of a non-empty image then lie inside the extent
      without overlapping, and the last one ends it.  `row` is the length of a row, if the format has one. */
  lemma MappedRowsFit(format: FourCc, width: int, height: int, stride: nat, max: nat, row: nat)
    requires width <= I32_MAX && height <= I32_MAX
    requires BlockOf(format).Some? && width >= 0 ==> HoldsRow(format, width, row)
    ensures MappedLen(format, width, height, stride, max).Some? <==>
            width >= 0 && height >= 0 &&
            (height == 0 || (BlockOf(format).Some? && row <= stride && stride * (height - 1) + row <= max))
    ensures MappedLen(format, width, height, stride, max).Some? ==>
              var len := MappedLen(format, width, height, stride, max).value;
              && len <= max && (height == 0 ==> len == 0) && (height > 0 ==> (height - 1) * stride + row == len)
              && (forall y: nat :: y < height ==> y * stride + row <= len)
              && (forall y: nat, z: nat :: y < z < height ==> y * stride + row <= z * stride)
  {
    if width >= 0 && height > 0 && BlockOf(format).Some? {
      MappedIff(format, width, height, stride, max, row);
      if row <= stride {
        RowsInExtent(stride, row, height);
      }
      assert stride * (height - 1) == (height - 1) * stride;
    }
  }

  lemma SameRow(format: FourCc, width: nat, row: nat, other: nat)
    requires HoldsRow(format, width, row) && HoldsRow(format, width, other)
    ensures row == other
  {
  }

  // The blocks that hold a pixel of a row fill it exactly when the pixels fill the blocks.
  lemma BlocksFillRow(format: FourCc, width: nat, row: nat)
    requires HoldsRow(format, width, row)
    ensures var block := BlockOf(format).value;
            var blocks := DivCeil(width, block.pixels);
            if width % block.pixels == 0 then blocks * block.bytes == row else blocks * block.bytes > row
  {
    var block := BlockOf(format).value;
    if block.pixels == 1 {
      assert DivCeil(width, 1) == width;
    }
  }

  lemma WholeBlockFits(format: FourCc, width: nat, row: nat, x: nat)
    requires HoldsRow(format, width, row) && (x + 1) * BlockOf(format).value.pixels <= width
    ensures (x + 1) * BlockOf(format).value.bytes <= row
  {
    var block := BlockOf(format).value;
    ProductLe((x + 1) * block.pixels, block.bytes, width, block.bytes);
  }

  /** In every row y of a granted mapping, every block x whose pixels all belong to the image lies in the extent, in its
      own row.  The last block of the last row ends exactly at the extent's end when the pixels fill the blocks, as they
      do in every packed format; in a sub-sampled format of odd width it reaches past the extent. */
  lemma PixelsFit(format: FourCc, width: nat, height: nat, stride: nat, max: nat, x: nat, y: nat)
    requires width <= I32_MAX && 1 <= height <= I32_MAX && y < height
    requires MappedLen(format, width, height, stride, max).Some?
    ensures BlockOf(format).Some?
    ensures var len, block := MappedLen(format, width, height, stride, max).value, BlockOf(format).value;
            var blocks := DivCeil(width, block.pixels);
            && ((x + 1) * block.pixels <= width ==>
                  y * stride + (x + 1) * block.bytes <= len && (y + 1 < height ==> (x + 1) * block.bytes <= stride))
            && ((height - 1) * stride + blocks * block.bytes == len <==> width % block.pixels == 0)
            && ((height - 1) * stride + blocks * block.bytes > len <==> width % block.pixels != 0)
  {
    RowIsExact(format, width);
    var row := MinStride(format, width).value;
    MappedRowsFit(format, width, height, stride, max, row);
    BlocksFillRow(format, width, row);
    if (x + 1) * BlockOf(format).value.pixels <= width {
      WholeBlockFits(format, width, row, x);
    }
  }

  // `validate_pixels`, in 64-bit arithmetic that wraps.
  function ExpectedLen(width: nat, height: nat): nat {
    ((width * height) % U64_MODULUS * 4) % U64_MODULUS
  }

  predicate ValidatePixels(width: int, height: int, rgbaLen: nat) {
    if width < 1 || height < 1 || width > I32_MAX / 4 then false
    else ExpectedLen(width, height) == rgbaLen
  }

  lemma ExpectedLenIsExact(width: nat, height: nat)
    requires width <= I32_MAX / 4 && height <= I32_MAX
    ensures ExpectedLen(width, height) == width * height * 4
  {
    ProductLe(width, height, I32_MAX / 4, I32_MAX);
    ProductLe(0, 0, width, height);
    NoWrap(width * height);
  }

  lemma NoWrap(p: nat)
    requires p * 4 < U64_MODULUS
    ensures (p % U64_MODULUS * 4) % U64_MODULUS == p * 4
  {
  }

  /** The stride `create_pixel_buffer` computes for accepted pixels fits in an `i32`, and the extent later mapped from
      the buffer is the whole pixel vector: for a width whose stride fits, that is what the predicate checks. */
  lemma ValidPixelsMapWhole(width: int, height: int, rgbaLen: nat, max: nat)
    requires width <= I32_MAX && height <= I32_MAX && rgbaLen <= max
    ensures ValidatePixels(width, height, rgbaLen) <==>
            && width >= 1 && height >= 1 && width * 4 <= I32_MAX
            && MappedLen(ABGR8888, width, height, width * 4, max) == Some(rgbaLen)
  {
    if width >= 1 && height >= 1 && width * 4 <= I32_MAX {
      ExpectedLenIsExact(width, height);
      RowIsExact(ABGR8888, width);
      MappedRowsFit(ABGR8888, width, height, width * 4, max, width * 4);
      assert width * 4 * (height - 1) + width * 4 == width * height * 4;
    }
  }
}
