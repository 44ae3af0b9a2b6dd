/**
 * `Image.to_numpy`: look the format up in the handler table, reinterpret
 * the raw buffer as elements of the table's dtype, and unless the format is
 * MJPG reshape it by the stride into rows, crop each row's padding, and
 * either hand the result to the format's conversion or reshape it to
 * height × width.
 */
module Image {
  import opened Wrappers

  type byte = b: int | 0 <= b < 256

  datatype PixelFormat =
    | ColorMJPG | ColorNV12 | ColorYUY2 | ColorBGRA32
    | Depth16 | IR16 | Custom8 | Custom16 | Custom
    | Unlisted(code: int)  // any other format code the SDK reports

  /** The element types of the table: bytes, little-endian `<u2`, little-endian `<i2`. */
  datatype Dtype = U8 | U16LE | I16LE

  /** What the table's lambda does with the cropped rows. */
  datatype Process = Imdecode | ConvertNV12 | ConvertYUY2 | RegroupBGRA | Keep

  /**
   * One entry of `_IMAGE_FORMATS_HANDLER`: dtype, `h_scale` as the fraction
   * `hNum / hDen` (none for MJPG), `w_scale`, and the processing step.
   */
  datatype Handler = Handler(dtype: Dtype, hScale: Option<(nat, nat)>, wScale: nat, process: Process)

  function HandlerOf(f: PixelFormat): (r: Option<Handler>)
    ensures r.None? <==> f.Unlisted?
    ensures r.Some? ==> (r.value.hScale.None? <==> f == ColorMJPG)
  {
    match f
    case ColorMJPG => Some(Handler(U8, None, 0, Imdecode))
    case ColorNV12 => Some(Handler(U8, Some((3, 2)), 1, ConvertNV12))
    case ColorYUY2 => Some(Handler(U8, Some((1, 1)), 2, ConvertYUY2))
    case ColorBGRA32 => Some(Handler(U8, Some((1, 1)), 4, RegroupBGRA))
    case Depth16 => Some(Handler(U16LE, Some((1, 1)), 1, Keep))
    case IR16 => Some(Handler(U16LE, Some((1, 1)), 1, Keep))
    case Custom8 => Some(Handler(U8, Some((1, 1)), 1, Keep))
    case Custom16 => Some(Handler(U16LE, Some((1, 1)), 1, Keep))
    case Custom => Some(Handler(I16LE, Some((1, 1)), 1, Keep))
    case Unlisted(_) => None
  }

  /** `np.dtype(t).itemsize`: one byte for uint8, two for the 16-bit dtypes. */
  function ItemSize(t: Dtype): (r: nat)
    ensures r == 1 || r == 2
    ensures r == 1 <==> t == U8
  {
    if t == U8 then 1 else 2
  }

  /** The range of one element of the dtype. */
  predicate InRange(t: Dtype, v: int)
  {
    match t
    case U8 => 0 <= v < 256
    case U16LE => 0 <= v < 65536
    case I16LE => -32768 <= v < 32768
  }

  /** `np.frombuffer(buffer, dtype)`: the element at i is made of bytes i·size … (i+1)·size - 1, low byte first. */
  function Reinterpret(bytes: seq<byte>, t: Dtype): (r: seq<int>)
    requires |bytes| % ItemSize(t) == 0
    ensures |r| * ItemSize(t) == |bytes|
    ensures forall i :: 0 <= i < |r| ==> InRange(t, r[i])
    ensures t == U8 ==> r == bytes
    ensures t != U8 ==> forall i :: 0 <= i < |r| ==> r[i] == Element(t, bytes[2 * i], bytes[2 * i + 1])
  {
    if t == U8 then bytes
    else if bytes == [] then []
    else [Element(t, bytes[0], bytes[1])] + Reinterpret(bytes[2..], t)
  }

  /** A 16-bit element from its low and high byte; `<i2` is two's complement. */
  function Element(t: Dtype, lo: byte, hi: byte): (r: int)
    requires t != U8
    ensures InRange(t, r)
  {
    var u := lo + 256 * hi;
    if t == I16LE && u >= 32768 then u - 65536 else u
  }

  /** The bytes of a little-endian 16-bit element. */
  function Bytes16(v: int): (r: seq<byte>)
    requires -32768 <= v < 65536
    ensures |r| == 2
  {
    var u := if v < 0 then v + 65536 else v;
    [u % 256, u / 256]
  }

  function Serialize(t: Dtype, vs: seq<int>): (r: seq<byte>)
    requires t != U8 && forall i :: 0 <= i < |vs| ==> InRange(t, vs[i])
    ensures |r| == 2 * |vs|
  {
    if vs == [] then []
    else
      assert InRange(t, vs[0]);
      Bytes16(vs[0]) + Serialize(t, vs[1..])
  }

  /** Reinterpretation inverts little-endian serialisation, element by element. */
  lemma {:induction false} ReinterpretSerialize(t: Dtype, vs: seq<int>)
    requires t != U8 && forall i :: 0 <= i < |vs| ==> InRange(t, vs[i])
    ensures Reinterpret(Serialize(t, vs), t) == vs
  {
    if vs != [] {
      var b := Serialize(t, vs);
      assert b[2..] == Serialize(t, vs[1..]);
      ReinterpretSerialize(t, vs[1..]);
    }
  }

  /** The bytes of the element read from `lo` and `hi` are `lo` and `hi` again. */
  lemma BytesOfElement(t: Dtype, lo: byte, hi: byte)
    requires t != U8
    ensures Bytes16(Element(t, lo, hi)) == [lo, hi]
  {
    var u := lo + 256 * hi;
    assert u % 256 == lo && u / 256 == hi;
  }

  /** …and serialisation inverts reinterpretation: no byte pattern is read two ways. */
  lemma {:induction false} SerializeReinterpret(t: Dtype, bytes: seq<byte>)
    requires t != U8 && |bytes| % 2 == 0
    ensures Serialize(t, Reinterpret(bytes, t)) == bytes
  {
    if bytes != [] {
      var r := Reinterpret(bytes, t);
      assert r[1..] == Reinterpret(bytes[2..], t);
      SerializeReinterpret(t, bytes[2..]);
      BytesOfElement(t, bytes[0], bytes[1]);
      assert bytes == [bytes[0], bytes[1]] + bytes[2..];
    }
  }

  /** `reshape(rows, cols)`: row r is elements r·cols … r·cols + cols - 1. */
  function Reshape(elems: seq<int>, rows: nat, cols: nat): (r: seq<seq<int>>)
    requires |elems| == rows * cols
    ensures |r| == rows
    ensures forall i :: 0 <= i < rows ==> |r[i]| == cols
  {
    if rows == 0 then []
    else
      assert rows * cols == cols + (rows - 1) * cols;
      [elems[..cols]] + Reshape(elems[cols..], rows - 1, cols)
  }

  /** Cell (i, j) of a rows × cols grid stored row by row lies inside it. */
  lemma CellInGrid(i: nat, j: nat, rows: nat, cols: nat)
    requires i < rows && j < cols
    ensures i * cols + j < rows * cols
  {
    assert i * cols + j < (i + 1) * cols;
    assert (i + 1) * cols <= rows * cols;
  }

  /** Element j of row i of the reshaped array is element i·cols + j of the input. */
  lemma {:induction false} ReshapeAt(elems: seq<int>, rows: nat, cols: nat, i: nat, j: nat)
    requires |elems| == rows * cols && i < rows && j < cols
    ensures i * cols + j < |elems| && Reshape(elems, rows, cols)[i][j] == elems[i * cols + j]
  {
    CellInGrid(i, j, rows, cols);
    assert rows * cols == cols + (rows - 1) * cols;
    if i > 0 {
      var k := (i - 1) * cols + j;
      assert i * cols + j == cols + k;
      ReshapeAt(elems[cols..], rows - 1, cols, i - 1, j);
      assert Reshape(elems, rows, cols)[i] == Reshape(elems[cols..], rows - 1, cols)[i - 1];
    }
  }

  function Flatten(rows: seq<seq<int>>): (r: seq<int>)
  {
    if rows == [] then [] else rows[0] + Flatten(rows[1..])
  }

  lemma {:induction false} FlattenLength(grid: seq<seq<int>>, cols: nat)
    requires forall i :: 0 <= i < |grid| ==> |grid[i]| == cols
    ensures |Flatten(grid)| == |grid| * cols
  {
    if grid != [] {
      FlattenLength(grid[1..], cols);
      assert |grid| * cols == cols + (|grid| - 1) * cols;
    }
  }

  /** Reshaping only regroups: flattening the rows gives back the elements. */
  lemma {:induction false} FlattenReshape(elems: seq<int>, rows: nat, cols: nat)
    requires |elems| == rows * cols
    ensures Flatten(Reshape(elems, rows, cols)) == elems
  {
    if rows > 0 {
      assert rows * cols == cols + (rows - 1) * cols;
      FlattenReshape(elems[cols..], rows - 1, cols);
      assert elems == elems[..cols] + elems[cols..];
    }
  }

  /** …and reshaping rows of equal length after flattening them gives back the rows. */
  lemma {:induction false} ReshapeFlatten(grid: seq<seq<int>>, cols: nat)
    requires forall i :: 0 <= i < |grid| ==> |grid[i]| == cols
    ensures |Flatten(grid)| == |grid| * cols && Reshape(Flatten(grid), |grid|, cols) == grid
  {
    FlattenLength(grid, cols);
    if grid != [] {
      FlattenLength(grid[1..], cols);
      ReshapeFlatten(grid[1..], cols);
      assert Flatten(grid)[..cols] == grid[0];
      assert Flatten(grid)[cols..] == Flatten(grid[1..]);
    }
  }

  /** `image[:, :n]`: every row cut to its first n elements (all of a shorter row). */
  function Crop(grid: seq<seq<int>>, n: nat): (r: seq<seq<int>>)
    ensures |r| == |grid|
    ensures forall i :: 0 <= i < |grid| ==> r[i] == grid[i][..Min(n, |grid[i]|)]
  {
    seq(|grid|, i requires 0 <= i < |grid| => grid[i][..Min(n, |grid[i]|)])
  }

  function Min(a: nat, b: nat): nat { if a <= b then a else b }

  /** `reshape(rows, -1, k)` of rows that all have length `cols`: each row cut into groups of k. */
  function Group(grid: seq<seq<int>>, cols: nat, k: nat): (r: seq<seq<seq<int>>>)
    requires k > 0 && cols % k == 0 && forall i :: 0 <= i < |grid| ==> |grid[i]| == cols
    ensures |r| == |grid|
    ensures forall i :: 0 <= i < |grid| ==> r[i] == GroupRow(grid[i], k) && |r[i]| == cols / k
  {
    seq(|grid|, i requires 0 <= i < |grid| => GroupRow(grid[i], k))
  }

  /** A row cut into consecutive groups of k; group j holds elements j·k … j·k + k - 1 (`ReshapeAt`). */
  function GroupRow(row: seq<int>, k: nat): (r: seq<seq<int>>)
    requires k > 0 && |row| % k == 0
    ensures |r| == |row| / k && forall j :: 0 <= j < |r| ==> |r[j]| == k
  {
    assert |row| == (|row| / k) * k;
    Reshape(row, |row| / k, k)
  }

  /** The arrays `to_numpy` returns. */
  datatype Array =
    | Flat(elems: seq<int>)
    | Grid(rows: seq<seq<int>>)
    | Grid3(pixels: seq<seq<seq<int>>>)

  datatype ImageError =
    | WrongImageFormat
    | ValueError  // numpy's frombuffer or reshape rejects the sizes

  /** The native image as `to_numpy` sees it. */
  datatype NativeImage = NativeImage(format: PixelFormat, width: nat, height: nat, stride: nat, buffer: seq<byte>)

  /**
   * `to_numpy`, with `cv2.imdecode` as `decode` and `cv2.cvtColor` as
   * `convert`. The first component of the pair is always true.
   */
  function ToNumpy(img: NativeImage, decode: seq<int> -> Array, convert: (PixelFormat, Array) -> Array)
    : (r: Result<(bool, Array), ImageError>)
    ensures r.Ok? ==> r.value.0
    ensures img.format.Unlisted? ==> r == Err(WrongImageFormat)
    ensures img.format == ColorMJPG ==> r == Ok((true, decode(img.buffer)))
  {
    match HandlerOf(img.format)
    case None => Err(WrongImageFormat)
    case Some(h) =>
      if |img.buffer| % ItemSize(h.dtype) != 0 then Err(ValueError)
      else
        var elems := Reinterpret(img.buffer, h.dtype);
        match h.hScale
        case None => Ok((true, decode(elems)))
        case Some((num, den)) =>
          var fitted := FromRows(img.format, h, elems, img.height * num / den, img.stride / ItemSize(h.dtype),
                                 img.width, img.height, decode, convert);
          if fitted.Ok? then Ok((true, fitted.value)) else Err(fitted.error)
  }

  /**
   * The part of `to_numpy` after `frombuffer` for a format with an
   * `h_scale`: reshape into `rows` rows of `cols` elements, crop each row
   * to `width · w_scale`, and process.
   */
  function FromRows(f: PixelFormat, h: Handler, elems: seq<int>, rows: nat, cols: nat, width: nat, height: nat,
                    decode: seq<int> -> Array, convert: (PixelFormat, Array) -> Array): Result<Array, ImageError>
  {
    if |elems| != rows * cols then Err(ValueError)
    else
      var cropped := Crop(Reshape(elems, rows, cols), width * h.wScale);
      var n := Min(width * h.wScale, cols);
      FlattenLength(cropped, n);
      match h.process
      case ConvertNV12 => Ok(convert(ColorNV12, Grid(cropped)))
      case ConvertYUY2 =>
        if rows == 0 || n % 2 != 0 then Err(ValueError)
        else Ok(convert(ColorYUY2, Grid3(Group(cropped, n, 2))))
      case RegroupBGRA =>
        if rows == 0 || n % 4 != 0 then Err(ValueError)
        else Ok(Grid3(Group(cropped, n, 4)))
      case Keep => KeepRows(cropped, n, height, width)
      case Imdecode => Ok(decode(elems))
  }

  /** `reshape(height, width)` of the cropped rows, which numpy refuses unless the sizes agree. */
  function KeepRows(cropped: seq<seq<int>>, n: nat, height: nat, width: nat): Result<Array, ImageError>
    requires forall i :: 0 <= i < |cropped| ==> |cropped[i]| == n
  {
    FlattenLength(cropped, n);
    if |cropped| * n != height * width then Err(ValueError)
    else Ok(Grid(Reshape(Flatten(cropped), height, width)))
  }

  /**
   * For rows already `width` long or shorter, keeping them succeeds
   * exactly when the image is empty or no row was short, and then returns
   * the rows themselves.
   */
  lemma KeepRowsOk(cropped: seq<seq<int>>, n: nat, width: nat)
    requires forall i :: 0 <= i < |cropped| ==> |cropped[i]| == n
    requires n <= width
    ensures KeepRows(cropped, n, |cropped|, width).Ok? <==> |cropped| == 0 || n == width
    ensures KeepRows(cropped, n, |cropped|, width).Ok? ==> KeepRows(cropped, n, |cropped|, width).value == Grid(cropped)
  {
    FlattenLength(cropped, n);
    if |cropped| > 0 && n < width {
      assert |cropped| * n < |cropped| * width;
    }
    if |cropped| == 0 || n == width {
      ReshapeFlatten(cropped, n);
    }
  }

  /** The handler's `h_scale` is 1 and `w_scale` is 1, and there is no processing step. */
  predicate IsPlain(f: PixelFormat)
  {
    f in {Depth16, IR16, Custom8, Custom16, Custom}
  }

  /**
   * A depth, infrared or custom image decodes exactly when the buffer
   * holds height rows of `stride // itemsize` elements and, unless the
   * image is empty, a row is at least `width` elements.
   */
  lemma PlainDecodes(img: NativeImage, decode: seq<int> -> Array, convert: (PixelFormat, Array) -> Array)
    requires IsPlain(img.format)
    ensures var t := HandlerOf(img.format).value.dtype;
      var se := img.stride / ItemSize(t);
      && (ToNumpy(img, decode, convert).Ok? <==>
            && |img.buffer| % ItemSize(t) == 0 && |img.buffer| / ItemSize(t) == img.height * se
            && (img.height == 0 || img.width <= se))
      && (ToNumpy(img, decode, convert).Ok? ==>
            ToNumpy(img, decode, convert).value.1 == Grid(Crop(Reshape(Reinterpret(img.buffer, t), img.height, se), img.width)))
  {
    var h := HandlerOf(img.format).value;
    var t := h.dtype;
    var se := img.stride / ItemSize(t);
    assert img.height * 1 / 1 == img.height && img.width * 1 == img.width;
    if |img.buffer| % ItemSize(t) == 0 {
      var elems := Reinterpret(img.buffer, t);
      assert |elems| == |img.buffer| / ItemSize(t);
      if |elems| == img.height * se {
        var cropped := Crop(Reshape(elems, img.height, se), img.width);
        KeepRowsOk(cropped, Min(img.width, se), img.width);
      }
    }
  }

  /**
   * Then pixel (r, c) is element r·stride_elements + c of the
   * reinterpreted buffer, which drops the row padding.
   */
  lemma PlainPixels(img: NativeImage, decode: seq<int> -> Array, convert: (PixelFormat, Array) -> Array, row: nat, c: nat)
    requires IsPlain(img.format) && ToNumpy(img, decode, convert).Ok?
    requires row < img.height && c < img.width
    ensures var t := HandlerOf(img.format).value.dtype;
      var se := img.stride / ItemSize(t);
      var a := ToNumpy(img, decode, convert).value.1;
      && a.Grid? && |a.rows| == img.height && |a.rows[row]| == img.width
      && row * se + c < |Reinterpret(img.buffer, t)|
      && a.rows[row][c] == Reinterpret(img.buffer, t)[row * se + c]
  {
    PlainDecodes(img, decode, convert);
    var t := HandlerOf(img.format).value.dtype;
    var se := img.stride / ItemSize(t);
    var elems := Reinterpret(img.buffer, t);
    var grid := Reshape(elems, img.height, se);
    var cropped := Crop(grid, img.width);
    assert cropped[row] == grid[row][..img.width];
    ReshapeAt(elems, img.height, se, row, c);
  }

  /**
   * A BGRA32 image decodes exactly when the buffer is height rows of
   * `stride` bytes, the image has a row, and the cropped row length is a
   * multiple of 4.
   */
  lemma BgraDecodes(img: NativeImage, decode: seq<int> -> Array, convert: (PixelFormat, Array) -> Array)
    requires img.format == ColorBGRA32
    ensures ToNumpy(img, decode, convert).Ok?
        <==> |img.buffer| == img.height * img.stride && img.height > 0 && Min(img.width * 4, img.stride) % 4 == 0
  {
    assert img.height * 1 / 1 == img.height;
    assert img.stride / 1 == img.stride;
  }

  /**
   * Then pixel (r, c) of the height × (n / 4) × 4 result, n being the
   * cropped row length, holds the four bytes at r·stride + 4c … r·stride + 4c + 3.
   */
  lemma BgraPixels(img: NativeImage, decode: seq<int> -> Array, convert: (PixelFormat, Array) -> Array,
                   row: nat, c: nat, k: nat)
    requires img.format == ColorBGRA32 && ToNumpy(img, decode, convert).Ok?
    requires row < img.height && c < Min(img.width * 4, img.stride) / 4 && k < 4
    ensures var a := ToNumpy(img, decode, convert).value.1;
      && a.Grid3? && |a.pixels| == img.height && |a.pixels[row]| == Min(img.width * 4, img.stride) / 4
      && |a.pixels[row][c]| == 4
      && row * img.stride + 4 * c + k < |img.buffer|
      && a.pixels[row][c][k] == img.buffer[row * img.stride + 4 * c + k]
  {
    var n := Min(img.width * 4, img.stride);
    BgraDecodes(img, decode, convert);
    assert img.height * 1 / 1 == img.height;
    assert img.stride / 1 == img.stride;
    var grid := Reshape(img.buffer, img.height, img.stride);
    var cropped := Crop(grid, img.width * 4);
    var out := Group(cropped, n, 4);
    assert ToNumpy(img, decode, convert) == Ok((true, Grid3(out)));
    assert |cropped[row]| == n;
    assert n == (n / 4) * 4;
    ReshapeAt(cropped[row], n / 4, 4, c, k);
    assert out[row][c][k] == cropped[row][c * 4 + k];
    CellInGrid(c, k, n / 4, 4);
    ReshapeAt(img.buffer, img.height, img.stride, row, 4 * c + k);
  }

  /**
   * An NV12 image: the buffer must be `int(1.5 · height)` rows of `stride`
   * bytes, and the conversion receives those rows cut to `width` bytes.
   */
  lemma Nv12Image(img: NativeImage, decode: seq<int> -> Array, convert: (PixelFormat, Array) -> Array)
    requires img.format == ColorNV12
    ensures var rows := img.height * 3 / 2;
      var r := ToNumpy(img, decode, convert);
      && (r.Ok? <==> |img.buffer| == rows * img.stride)
      && (r.Ok? ==> r == Ok((true, convert(ColorNV12, Grid(Crop(Reshape(img.buffer, rows, img.stride), img.width))))))
  {
    assert img.stride / 1 == img.stride;
    assert img.width * 1 == img.width;
  }
}
