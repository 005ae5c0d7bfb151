/** The 3x3 box blur kernels of kernels/003-image-blur.c. One call of a
    method is one work-item: it computes its pixel from the work-group id,
    work-group size and work-item id, returns when the pixel is outside the
    image, and otherwise averages the pixel's in-bounds neighbours (itself
    included) with integer division and writes the result. */
module ImageBlur {
  import opened Bits
  import opened Hsa

  type byte = x: int | 0 <= x < 256

  const TWO_31: nat := 0x8000_0000

  /** The device builtins one work-item reads, per axis. */
  datatype WorkItem = WorkItem(groupIdX: u32, groupSizeX: u32, itemIdX: u32,
                               groupIdY: u32, groupSizeY: u32, itemIdY: u32)

  /** `int c = workgroup_id * workgroup_size + workitem_id`: the builtins are
      unsigned 32-bit, so the expression wraps modulo 2^32 and is then
      converted to a two's-complement int. */
  function Coordinate(groupId: u32, groupSize: u32, itemId: u32): (c: i32)
    ensures groupId * groupSize + itemId < TWO_31 ==> c == groupId * groupSize + itemId
    ensures c % TWO_32 == (groupId * groupSize + itemId) % TWO_32
  {
    var u := (groupId * groupSize + itemId) % TWO_32;
    if u < TWO_31 then u else u - TWO_32
  }

  function PixelX(item: WorkItem): i32 {
    Coordinate(item.groupIdX, item.groupSizeX, item.itemIdX)
  }

  function PixelY(item: WorkItem): i32 {
    Coordinate(item.groupIdY, item.groupSizeY, item.itemIdY)
  }

  /** The pixel (nx, ny) lies in a width x height image. */
  predicate Inside(nx: int, ny: int, width: int, height: int) {
    0 <= nx < width && 0 <= ny < height
  }

  /** In-bounds pixels of row `ny` among the first `c` of the columns
      x - 1, x, x + 1 (the inner loop's order). */
  function RowCount(x: int, ny: int, width: int, height: int, c: nat): (n: nat)
    requires c <= 3
  {
    if c == 0 then 0
    else RowCount(x, ny, width, height, c - 1) + (if Inside(x + c - 2, ny, width, height) then 1 else 0)
  }

  /** In-bounds pixels among the first `r` of the rows y - 1, y, y + 1 of the
      neighbourhood of (x, y) (the outer loop's order). */
  function CountUpTo(x: int, y: int, width: int, height: int, r: nat): (n: nat)
    requires r <= 3
  {
    if r == 0 then 0
    else CountUpTo(x, y, width, height, r - 1) + RowCount(x, y + r - 2, width, height, 3)
  }

  /** The number of in-bounds pixels of the 3x3 neighbourhood of (x, y). */
  function Count(x: int, y: int, width: int, height: int): (n: nat)
  {
    CountUpTo(x, y, width, height, 3)
  }

  /** A row-major index of an in-bounds pixel addresses the image. */
  lemma IndexInImage(nx: int, ny: int, width: int, height: int)
    requires Inside(nx, ny, width, height)
    ensures 0 <= ny * width + nx < width * height
  {
    assert ny * width <= (height - 1) * width by {
      MulMonotone(ny, height - 1, width);
    }
    assert (height - 1) * width == height * width - width;
  }

  /** The row-major index `ny * width + nx` of an in-bounds pixel. */
  function Index(nx: int, ny: int, width: int, height: int): (i: nat)
    requires Inside(nx, ny, width, height)
    ensures i < width * height
    ensures 3 * i + 2 < 3 * (width * height)
  {
    IndexInImage(nx, ny, width, height);
    ny * width + nx
  }

  lemma MulMonotone(a: int, b: int, c: int)
    requires 0 <= a <= b && 0 <= c
    ensures 0 <= a * c <= b * c
  {
    assert b * c - a * c == (b - a) * c;
  }

  // ------------------------------------------------------------ monochrome

  /** The byte of in-bounds pixel (nx, ny) of a monochrome image. */
  function Pixel(img: seq<byte>, nx: int, ny: int, width: int, height: int): byte
    requires Inside(nx, ny, width, height) && width * height <= |img|
  {
    img[Index(nx, ny, width, height)]
  }

  /** The sum of the in-bounds pixels of row `ny` among the first `c` columns. */
  function RowSum(img: seq<byte>, x: int, ny: int, width: int, height: int, c: nat): (s: nat)
    requires c <= 3 && width * height <= |img|
  {
    if c == 0 then 0
    else RowSum(img, x, ny, width, height, c - 1)
         + (if Inside(x + c - 2, ny, width, height) then Pixel(img, x + c - 2, ny, width, height) else 0)
  }

  /** The sum of the in-bounds pixels among the first `r` rows of the
      neighbourhood of (x, y). */
  function SumUpTo(img: seq<byte>, x: int, y: int, width: int, height: int, r: nat): (s: nat)
    requires r <= 3 && width * height <= |img|
  {
    if r == 0 then 0
    else SumUpTo(img, x, y, width, height, r - 1) + RowSum(img, x, y + r - 2, width, height, 3)
  }

  /** Every pixel is below 256, so a sum is at most 255 times its count. */
  lemma {:induction false} RowSumBound(img: seq<byte>, x: int, ny: int, width: int, height: int, c: nat)
    requires c <= 3 && width * height <= |img|
    ensures RowSum(img, x, ny, width, height, c) <= 255 * RowCount(x, ny, width, height, c)
  {
    if c > 0 {
      RowSumBound(img, x, ny, width, height, c - 1);
    }
  }

  lemma {:induction false} SumBound(img: seq<byte>, x: int, y: int, width: int, height: int, r: nat)
    requires r <= 3 && width * height <= |img|
    ensures SumUpTo(img, x, y, width, height, r) <= 255 * CountUpTo(x, y, width, height, r)
  {
    if r > 0 {
      SumBound(img, x, y, width, height, r - 1);
      RowSumBound(img, x, y + r - 2, width, height, 3);
    }
  }

  /** The blurred value of in-bounds pixel (x, y): the sum of its in-bounds
      neighbourhood divided by their number. */
  function Blurred(img: seq<byte>, x: int, y: int, width: int, height: int): byte
    requires Inside(x, y, width, height) && width * height <= |img|
  {
    CountPositive(x, y, width, height);
    SumBound(img, x, y, width, height, 3);
    AverageIsByte(SumUpTo(img, x, y, width, height, 3), Count(x, y, width, height));
    SumUpTo(img, x, y, width, height, 3) / Count(x, y, width, height)
  }

  lemma AverageIsByte(sum: nat, count: nat)
    requires count > 0 && sum <= 255 * count
    ensures 0 <= sum / count <= 255
  {
  }

  // ----------------------------------------------------------------- RGB

  /** Byte `c` (0 red, 1 green, 2 blue) of in-bounds pixel (nx, ny) of an
      interleaved RGB image. */
  function ChannelPixel(img: seq<byte>, c: nat, nx: int, ny: int, width: int, height: int): byte
    requires c < 3 && Inside(nx, ny, width, height) && 3 * (width * height) <= |img|
  {
    img[Index(nx, ny, width, height) * 3 + c]
  }

  function ChannelRowSum(img: seq<byte>, c: nat, x: int, ny: int, width: int, height: int, col: nat): (s: nat)
    requires c < 3 && col <= 3 && 3 * (width * height) <= |img|
  {
    if col == 0 then 0
    else ChannelRowSum(img, c, x, ny, width, height, col - 1)
         + (if Inside(x + col - 2, ny, width, height) then ChannelPixel(img, c, x + col - 2, ny, width, height) else 0)
  }

  function ChannelSumUpTo(img: seq<byte>, c: nat, x: int, y: int, width: int, height: int, r: nat): (s: nat)
    requires c < 3 && r <= 3 && 3 * (width * height) <= |img|
  {
    if r == 0 then 0
    else ChannelSumUpTo(img, c, x, y, width, height, r - 1) + ChannelRowSum(img, c, x, y + r - 2, width, height, 3)
  }

  lemma {:induction false} ChannelRowSumBound(img: seq<byte>, c: nat, x: int, ny: int, width: int, height: int, col: nat)
    requires c < 3 && col <= 3 && 3 * (width * height) <= |img|
    ensures ChannelRowSum(img, c, x, ny, width, height, col) <= 255 * RowCount(x, ny, width, height, col)
  {
    if col > 0 {
      ChannelRowSumBound(img, c, x, ny, width, height, col - 1);
    }
  }

  lemma {:induction false} ChannelSumBound(img: seq<byte>, c: nat, x: int, y: int, width: int, height: int, r: nat)
    requires c < 3 && r <= 3 && 3 * (width * height) <= |img|
    ensures ChannelSumUpTo(img, c, x, y, width, height, r) <= 255 * CountUpTo(x, y, width, height, r)
  {
    if r > 0 {
      ChannelSumBound(img, c, x, y, width, height, r - 1);
      ChannelRowSumBound(img, c, x, y + r - 2, width, height, 3);
    }
  }

  /** The blurred value of channel `c` of in-bounds pixel (x, y); the three
      channels share one neighbour count. */
  function BlurredChannel(img: seq<byte>, c: nat, x: int, y: int, width: int, height: int): byte
    requires c < 3 && Inside(x, y, width, height) && 3 * (width * height) <= |img|
  {
    CountPositive(x, y, width, height);
    ChannelSumBound(img, c, x, y, width, height, 3);
    AverageIsByte(ChannelSumUpTo(img, c, x, y, width, height, 3), Count(x, y, width, height));
    ChannelSumUpTo(img, c, x, y, width, height, 3) / Count(x, y, width, height)
  }

  /** Channel `c` of an interleaved RGB image as a monochrome image. */
  function Plane(img: seq<byte>, c: nat, width: int, height: int): (p: seq<byte>)
    requires c < 3 && 0 <= width * height && 3 * (width * height) <= |img|
    ensures |p| == width * height
    ensures forall i :: 0 <= i < |p| ==> p[i] == img[3 * i + c]
  {
    seq(width * height, i requires 0 <= i < width * height => img[3 * i + c])
  }

  // ----------------------------------------------------------- count facts

  /** How many of t-1, t, t+1 lie in [0, n). */
  function Span(t: int, n: int): (s: nat)
    ensures s <= 3
  {
    (if 0 <= t - 1 < n then 1 else 0) + (if 0 <= t < n then 1 else 0) + (if 0 <= t + 1 < n then 1 else 0)
  }

  /** A row of the neighbourhood holds Span(x, width) in-bounds pixels when
      the row itself is in the image, and none otherwise. */
  lemma RowCountIsSpan(x: int, ny: int, width: int, height: int)
    ensures RowCount(x, ny, width, height, 3) == (if 0 <= ny < height then Span(x, width) else 0)
  {
    assert RowCount(x, ny, width, height, 1) == (if Inside(x - 1, ny, width, height) then 1 else 0);
  }

  /** The neighbour count is the product of the in-bounds columns and the
      in-bounds rows of the neighbourhood. */
  lemma CountIsSpanProduct(x: int, y: int, width: int, height: int)
    ensures Count(x, y, width, height) == Span(x, width) * Span(y, height)
  {
    RowCountIsSpan(x, y - 1, width, height);
    RowCountIsSpan(x, y, width, height);
    RowCountIsSpan(x, y + 1, width, height);
    assert CountUpTo(x, y, width, height, 1) == RowCount(x, y - 1, width, height, 3);
    assert CountUpTo(x, y, width, height, 2) == CountUpTo(x, y, width, height, 1) + RowCount(x, y, width, height, 3);
    RowsOfSpan(y, height, Span(x, width));
  }

  lemma RowsOfSpan(y: int, height: int, s: nat)
    ensures (if 0 <= y - 1 < height then s else 0) + (if 0 <= y < height then s else 0)
            + (if 0 <= y + 1 < height then s else 0) == s * Span(y, height)
  {
  }

  lemma FloorDiv(s: nat, n: nat)
    requires n > 0
    ensures n * (s / n) <= s < n * (s / n) + n
  {
  }

  /** The centre is always counted: an in-bounds pixel has between 1 and 9
      neighbours in bounds, so the division is never by zero. */
  lemma CountPositive(x: int, y: int, width: int, height: int)
    requires Inside(x, y, width, height)
    ensures 1 <= Count(x, y, width, height) <= 9
  {
    CountIsSpanProduct(x, y, width, height);
  }

  /** A corner pixel of an image at least 2 x 2 has 4 neighbours in bounds. */
  lemma CornerCount(x: int, y: int, width: int, height: int)
    requires width >= 2 && height >= 2
    requires x == 0 || x == width - 1
    requires y == 0 || y == height - 1
    ensures Count(x, y, width, height) == 4
  {
    CountIsSpanProduct(x, y, width, height);
  }

  /** A pixel on an edge but not at a corner has 6 neighbours in bounds; the
      edge it lies on must be at least 3 long for such a pixel to exist. */
  lemma EdgeCount(x: int, y: int, width: int, height: int)
    requires width >= 2 && height >= 2
    requires ((x == 0 || x == width - 1) && 1 <= y <= height - 2)
             || ((y == 0 || y == height - 1) && 1 <= x <= width - 2)
    ensures Count(x, y, width, height) == 6
  {
    CountIsSpanProduct(x, y, width, height);
  }

  /** An interior pixel has all 9 neighbours in bounds. */
  lemma InteriorCount(x: int, y: int, width: int, height: int)
    requires 1 <= x <= width - 2 && 1 <= y <= height - 2
    ensures Count(x, y, width, height) == 9
  {
    CountIsSpanProduct(x, y, width, height);
  }

  // ------------------------------------------------------- average facts

  /** A grid holds fewer than 2^32 work-items, so a global id is at most
      2^32 - 2, and a coordinate that wraps negative is at most -2. */
  lemma WrappedCoordinate(groupId: u32, groupSize: u32, itemId: u32)
    requires groupId * groupSize + itemId < TWO_32 - 1
    ensures Coordinate(groupId, groupSize, itemId) < 0 ==> Coordinate(groupId, groupSize, itemId) <= -2
  {
  }

  /** A coordinate of -2 or less has no neighbour in the image, so the
      count stays 0 and the final division would divide by zero. */
  lemma WrappedCoordinateCountsNothing(x: int, y: int, width: int, height: int)
    requires x <= -2 || y <= -2
    ensures Count(x, y, width, height) == 0
  {
    CountIsSpanProduct(x, y, width, height);
  }

  /** The blurred value is the floor of the neighbourhood's average. */
  lemma BlurredIsFloorAverage(img: seq<byte>, x: int, y: int, width: int, height: int)
    requires Inside(x, y, width, height) && width * height <= |img|
    ensures var n, s, v := Count(x, y, width, height), SumUpTo(img, x, y, width, height, 3), Blurred(img, x, y, width, height);
            n * v <= s < n * (v + 1)
  {
    CountPositive(x, y, width, height);
    FloorDiv(SumUpTo(img, x, y, width, height, 3), Count(x, y, width, height));
  }

  /** Over an image whose every pixel is `v`, a row's partial sum is `v`
      times its partial count. */
  lemma {:induction false} ConstantRowSum(img: seq<byte>, v: byte, x: int, ny: int, width: int, height: int, c: nat)
    requires c <= 3 && width * height <= |img|
    requires forall i :: 0 <= i < |img| ==> img[i] == v
    ensures RowSum(img, x, ny, width, height, c) == RowCount(x, ny, width, height, c) * v
  {
    if c > 0 {
      ConstantRowSum(img, v, x, ny, width, height, c - 1);
      var n := RowCount(x, ny, width, height, c - 1);
      if Inside(x + c - 2, ny, width, height) {
        assert Pixel(img, x + c - 2, ny, width, height) == v;
        MulSucc(n, v);
      }
    }
  }

  /** The same for the partial sum over the first `r` rows. */
  lemma {:induction false} ConstantSum(img: seq<byte>, v: byte, x: int, y: int, width: int, height: int, r: nat)
    requires r <= 3 && width * height <= |img|
    requires forall i :: 0 <= i < |img| ==> img[i] == v
    ensures SumUpTo(img, x, y, width, height, r) == CountUpTo(x, y, width, height, r) * v
  {
    if r > 0 {
      ConstantSum(img, v, x, y, width, height, r - 1);
      ConstantRowSum(img, v, x, y + r - 2, width, height, 3);
      MulAdd(CountUpTo(x, y, width, height, r - 1), RowCount(x, y + r - 2, width, height, 3), v);
    }
  }

  lemma MulAdd(a: int, b: int, v: int)
    ensures (a + b) * v == a * v + b * v
  {
  }

  lemma MulSucc(c: int, v: int)
    ensures (c + 1) * v == c * v + v
  {
  }

  /** Blurring a constant monochrome image leaves its value unchanged. */
  lemma ConstantImageUnchanged(img: seq<byte>, v: byte, x: int, y: int, width: int, height: int)
    requires Inside(x, y, width, height) && width * height <= |img|
    requires forall i :: 0 <= i < |img| ==> img[i] == v
    ensures Blurred(img, x, y, width, height) == v
  {
    ConstantSum(img, v, x, y, width, height, 3);
    CountPositive(x, y, width, height);
    var n, total := Count(x, y, width, height), SumUpTo(img, x, y, width, height, 3);
    assert total == n * v + 0;
    DivUnique(total, n, v, 0);
    assert Blurred(img, x, y, width, height) == total / n;
  }

  /** Each RGB channel is blurred exactly as the monochrome kernel blurs that
      channel's plane: row by row, then over the rows. */
  lemma {:induction false} ChannelRowIsPlaneRow(img: seq<byte>, c: nat, x: int, ny: int, width: int, height: int, col: nat)
    requires c < 3 && col <= 3 && 0 <= width * height && 3 * (width * height) <= |img|
    ensures ChannelRowSum(img, c, x, ny, width, height, col) == RowSum(Plane(img, c, width, height), x, ny, width, height, col)
  {
    if col > 0 {
      ChannelRowIsPlaneRow(img, c, x, ny, width, height, col - 1);
      if Inside(x + col - 2, ny, width, height) {
        var i := Index(x + col - 2, ny, width, height);
        assert i * 3 + c == 3 * i + c;
      }
    }
  }

  lemma {:induction false} ChannelSumIsPlaneSum(img: seq<byte>, c: nat, x: int, y: int, width: int, height: int, r: nat)
    requires c < 3 && r <= 3 && 0 <= width * height && 3 * (width * height) <= |img|
    ensures ChannelSumUpTo(img, c, x, y, width, height, r) == SumUpTo(Plane(img, c, width, height), x, y, width, height, r)
  {
    if r > 0 {
      ChannelSumIsPlaneSum(img, c, x, y, width, height, r - 1);
      ChannelRowIsPlaneRow(img, c, x, y + r - 2, width, height, 3);
    }
  }

  lemma ChannelIsPlane(img: seq<byte>, c: nat, x: int, y: int, width: int, height: int)
    requires c < 3 && Inside(x, y, width, height) && 3 * (width * height) <= |img|
    ensures BlurredChannel(img, c, x, y, width, height) == Blurred(Plane(img, c, width, height), x, y, width, height)
  {
    ChannelSumIsPlaneSum(img, c, x, y, width, height, 3);
  }

  // ------------------------------------------------------------- kernels

  /** The buffers a monochrome call may be given: when the image is not
      empty both hold width * height bytes, and every index fits in an int. */
  predicate MonoFits(width: int, height: int, inLength: nat, outLength: nat) {
    0 < width && 0 < height ==>
      width * height <= inLength && width * height <= outLength && width * height <= TWO_31
  }

  /** The buffers an RGB call may be given: three bytes per pixel. */
  predicate RgbFits(width: int, height: int, inLength: nat, outLength: nat) {
    0 < width && 0 < height ==>
      3 * (width * height) <= inLength && 3 * (width * height) <= outLength && 3 * (width * height) <= TWO_31
  }

  /** image_blur_monochrome, for one work-item. A work-item outside the image
      writes nothing; otherwise it writes only its own pixel, with the
      blurred value of the input. */
  method BlurMonochrome(imgOut: array<byte>, imgIn: array<byte>, width: i32, height: i32, item: WorkItem)
    requires (PixelX(item) >= 0 && PixelY(item) >= 0) || PixelX(item) >= width || PixelY(item) >= height
    requires MonoFits(width, height, imgIn.Length, imgOut.Length)
    modifies imgOut
    ensures var x, y := PixelX(item), PixelY(item);
            x >= width || y >= height ==> imgOut[..] == old(imgOut[..])
    ensures var x, y := PixelX(item), PixelY(item);
            Inside(x, y, width, height) ==>
              imgOut[..] == old(imgOut[..])[Index(x, y, width, height) := Blurred(old(imgIn[..]), x, y, width, height)]
  {
    var x := PixelX(item);
    var y := PixelY(item);
    if x >= width || y >= height {
      return;
    }
    BlurMonoPixel(imgOut, imgIn, width, height, x, y);
  }

  /** The body of image_blur_monochrome past the bounds check: the nested
      dy/dx loops over the neighbourhood of (x, y) and the store. */
  method BlurMonoPixel(imgOut: array<byte>, imgIn: array<byte>, width: i32, height: i32, x: i32, y: i32)
    requires Inside(x, y, width, height)
    requires MonoFits(width, height, imgIn.Length, imgOut.Length)
    modifies imgOut
    ensures imgOut[..] == old(imgOut[..])[Index(x, y, width, height) := Blurred(old(imgIn[..]), x, y, width, height)]
  {
    var sum: nat := 0;
    var count: nat := 0;
    var dy := -1;
    while dy <= 1
      invariant -1 <= dy <= 2
      invariant count == CountUpTo(x, y, width, height, dy + 1)
      invariant sum == SumUpTo(imgIn[..], x, y, width, height, dy + 1)
    {
      var dx := -1;
      while dx <= 1
        invariant -1 <= dx <= 2
        invariant count == CountUpTo(x, y, width, height, dy + 1) + RowCount(x, y + dy, width, height, dx + 1)
        invariant sum == SumUpTo(imgIn[..], x, y, width, height, dy + 1) + RowSum(imgIn[..], x, y + dy, width, height, dx + 1)
      {
        var nx := x + dx;
        var ny := y + dy;
        if nx >= 0 && nx < width && ny >= 0 && ny < height {
          sum := sum + imgIn[Index(nx, ny, width, height)];
          count := count + 1;
        }
        dx := dx + 1;
      }
      dy := dy + 1;
    }
    CountPositive(x, y, width, height);
    SumBound(imgIn[..], x, y, width, height, 3);
    AverageIsByte(sum, count);
    imgOut[Index(x, y, width, height)] := sum / count;
  }

  /** image_blur_rgb, for one work-item. A work-item outside the image writes
      nothing; otherwise it writes exactly the three bytes of its own pixel,
      each the blurred value of that channel of the input. */
  method BlurRgb(imgOut: array<byte>, imgIn: array<byte>, width: i32, height: i32, item: WorkItem)
    requires (PixelX(item) >= 0 && PixelY(item) >= 0) || PixelX(item) >= width || PixelY(item) >= height
    requires RgbFits(width, height, imgIn.Length, imgOut.Length)
    modifies imgOut
    ensures var x, y := PixelX(item), PixelY(item);
            x >= width || y >= height ==> imgOut[..] == old(imgOut[..])
    ensures var x, y := PixelX(item), PixelY(item);
            Inside(x, y, width, height) ==>
              var idx := Index(x, y, width, height) * 3;
              imgOut[..] == old(imgOut[..])[idx := BlurredChannel(old(imgIn[..]), 0, x, y, width, height)]
                                           [idx + 1 := BlurredChannel(old(imgIn[..]), 1, x, y, width, height)]
                                           [idx + 2 := BlurredChannel(old(imgIn[..]), 2, x, y, width, height)]
  {
    var x := PixelX(item);
    var y := PixelY(item);
    if x >= width || y >= height {
      return;
    }
    BlurRgbPixel(imgOut, imgIn, width, height, x, y);
  }

  /** The body of image_blur_rgb past the bounds check: the three channel
      sums over the neighbourhood of (x, y) and the three stores. */
  method BlurRgbPixel(imgOut: array<byte>, imgIn: array<byte>, width: i32, height: i32, x: i32, y: i32)
    requires Inside(x, y, width, height)
    requires RgbFits(width, height, imgIn.Length, imgOut.Length)
    modifies imgOut
    ensures var idx := Index(x, y, width, height) * 3;
            imgOut[..] == old(imgOut[..])[idx := BlurredChannel(old(imgIn[..]), 0, x, y, width, height)]
                                         [idx + 1 := BlurredChannel(old(imgIn[..]), 1, x, y, width, height)]
                                         [idx + 2 := BlurredChannel(old(imgIn[..]), 2, x, y, width, height)]
  {
    var idx := Index(x, y, width, height) * 3;
    var sumR: nat, sumG: nat, sumB: nat := 0, 0, 0;
    var count: nat := 0;
    var dy := -1;
    while dy <= 1
      invariant -1 <= dy <= 2
      invariant count == CountUpTo(x, y, width, height, dy + 1)
      invariant sumR == ChannelSumUpTo(imgIn[..], 0, x, y, width, height, dy + 1)
      invariant sumG == ChannelSumUpTo(imgIn[..], 1, x, y, width, height, dy + 1)
      invariant sumB == ChannelSumUpTo(imgIn[..], 2, x, y, width, height, dy + 1)
    {
      var dx := -1;
      while dx <= 1
        invariant -1 <= dx <= 2
        invariant count == CountUpTo(x, y, width, height, dy + 1) + RowCount(x, y + dy, width, height, dx + 1)
        invariant sumR == ChannelSumUpTo(imgIn[..], 0, x, y, width, height, dy + 1)
                          + ChannelRowSum(imgIn[..], 0, x, y + dy, width, height, dx + 1)
        invariant sumG == ChannelSumUpTo(imgIn[..], 1, x, y, width, height, dy + 1)
                          + ChannelRowSum(imgIn[..], 1, x, y + dy, width, height, dx + 1)
        invariant sumB == ChannelSumUpTo(imgIn[..], 2, x, y, width, height, dy + 1)
                          + ChannelRowSum(imgIn[..], 2, x, y + dy, width, height, dx + 1)
      {
        var nx := x + dx;
        var ny := y + dy;
        if nx >= 0 && nx < width && ny >= 0 && ny < height {
          var nIdx := Index(nx, ny, width, height) * 3;
          sumR := sumR + imgIn[nIdx];
          sumG := sumG + imgIn[nIdx + 1];
          sumB := sumB + imgIn[nIdx + 2];
          count := count + 1;
        }
        dx := dx + 1;
      }
      dy := dy + 1;
    }
    CountPositive(x, y, width, height);
    ChannelSumBound(imgIn[..], 0, x, y, width, height, 3);
    ChannelSumBound(imgIn[..], 1, x, y, width, height, 3);
    ChannelSumBound(imgIn[..], 2, x, y, width, height, 3);
    AverageIsByte(sumR, count);
    AverageIsByte(sumG, count);
    AverageIsByte(sumB, count);
    imgOut[idx] := sumR / count;
    imgOut[idx + 1] := sumG / count;
    imgOut[idx + 2] := sumB / count;
  }
}
