/** Turning a camera frame or the sample image into the model's input tensor in
    ar-model/app.js (`videoToTensor`, `imageToTensor`): choosing the layout from the
    model's input metadata, packing RGBA pixels into RGB, and rearranging HWC into
    CHW. Pixel values are the integer channel values; the division by 255 is not modelled. */
module Preprocess {
  import opened Wrappers

  /** One entry of `inputMeta.dimensions`: a number or a symbolic name. */
  datatype Dim = Fixed(n: int) | Symbolic(name: string)

  /** `inputMeta?.dimensions`: an array of dimensions, or some other truthy value. */
  datatype DimsValue = DimsArray(dims: seq<Dim>) | NotAnArray

  /** The side of the square input: 224 for MobileNetV2 (`preprocess.size`, and the
      `size` of `imageToTensor`). */
  const Size: nat := 224

  /** The number of pixels of one frame, and the length of one CHW plane. */
  const Plane: nat := Size * Size

  /** The length of the RGB buffers `float` and `chw`: `size * size * 3`. */
  const TensorSize: nat := 3 * Plane

  /** The layout decision: `dims` falls back to `[1, 3, size, size]` when the metadata
      has none; a 4-element array is NCHW exactly when its second entry is 3, and
      anything else is taken as NCHW. */
  function IsNchw(meta: Option<DimsValue>): (r: bool)
    ensures meta.Some? && meta.value.DimsArray? && |meta.value.dims| == 4 ==>
              (r <==> meta.value.dims[1] == Fixed(3))
    ensures meta.None? || meta.value.NotAnArray? || |meta.value.dims| != 4 ==> r
  {
    var dims := meta.GetOr(DimsArray([Fixed(1), Fixed(3), Fixed(Size), Fixed(Size)]));
    match dims
    case DimsArray(ds) => if |ds| == 4 then ds[1] == Fixed(3) else true
    case NotAnArray => true
  }

  /** The layout decision reads NHWC only from a 4-element array whose channel
      position holds something other than 3. */
  lemma NhwcOnlyFromFourDims(meta: Option<DimsValue>)
    requires !IsNchw(meta)
    ensures meta.Some? && meta.value.DimsArray? && |meta.value.dims| == 4
    ensures meta.value.dims[1] != Fixed(3)
  {
  }

  /** Position of channel `c` of pixel `(y, x)` in the interleaved HWC buffer. */
  function HwcIndex(c: nat, y: nat, x: nat): nat {
    (y * Size + x) * 3 + c
  }

  /** Position of channel `c` of pixel `(y, x)` in the planar CHW buffer. */
  function ChwIndex(c: nat, y: nat, x: nat): nat {
    c * Plane + y * Size + x
  }

  predicate InFrame(c: nat, y: nat, x: nat) {
    c < 3 && y < Size && x < Size
  }

  lemma IndexBounds(c: nat, y: nat, x: nat)
    requires InFrame(c, y, x)
    ensures HwcIndex(c, y, x) < TensorSize && ChwIndex(c, y, x) < TensorSize
  {
  }

  /** Channel-major rearrangement of an interleaved RGB buffer: plane `c` holds
      channel `c` of every pixel in row-major order. */
  ghost predicate IsChwOf(chw: seq<int>, hwc: seq<int>) {
    && |chw| == TensorSize && |hwc| == TensorSize
    && forall c, y, x :: InFrame(c, y, x) ==> chw[ChwIndex(c, y, x)] == hwc[HwcIndex(c, y, x)]
  }

  /** Every value of the interleaved buffer lands in the planar one, so the
      rearrangement loses nothing: `hwc` can be read back from `chw`. */
  lemma ChwKeepsEveryValue(chw: seq<int>, hwc: seq<int>, h: nat)
    requires IsChwOf(chw, hwc) && h < |hwc|
    ensures var c, y, x := h % 3, h / 3 / Size, h / 3 % Size;
            InFrame(c, y, x) && hwc[h] == chw[ChwIndex(c, y, x)]
  {
    var c, y, x := h % 3, h / 3 / Size, h / 3 % Size;
    assert HwcIndex(c, y, x) == h;
  }

  /** The rearrangement is determined: every position of `chw` is the image of one
      pixel channel, so two planar buffers of one interleaved buffer are equal. */
  lemma ChwUnique(a: seq<int>, b: seq<int>, hwc: seq<int>)
    requires IsChwOf(a, hwc) && IsChwOf(b, hwc)
    ensures a == b
  {
    forall q | 0 <= q < |a| ensures a[q] == b[q] {
      var c, y, x := q / Plane, q % Plane / Size, q % Size;
      assert ChwIndex(c, y, x) == q;
    }
  }

  /** The RGBA to RGB packing of the `for (i = 0, j = 0; i < data.length; i += 4)` loop:
      entry `j` of the packed buffer is colour byte `j % 3` of pixel `j / 3`. */
  ghost predicate IsRgbOf(rgb: seq<int>, rgba: seq<int>) {
    && |rgba| % 4 == 0 && |rgb| == |rgba| / 4 * 3
    && forall j :: 0 <= j < |rgb| ==> rgb[j] == rgba[4 * (j / 3) + j % 3]
  }

  /** The packed buffer of an RGBA buffer. */
  function Rgb(rgba: seq<int>): (rgb: seq<int>)
    requires |rgba| % 4 == 0
    ensures IsRgbOf(rgb, rgba)
  {
    seq(|rgba| / 4 * 3, j requires 0 <= j < |rgba| / 4 * 3 => rgba[4 * (j / 3) + j % 3])
  }

  /** Packing keeps the red, green and blue bytes of each pixel, in order, and
      only drops its alpha byte. */
  lemma PackKeepsColours(rgb: seq<int>, rgba: seq<int>, p: nat, c: nat)
    requires IsRgbOf(rgb, rgba) && p < |rgba| / 4 && c < 3
    ensures 3 * p + c < |rgb| && rgb[3 * p + c] == rgba[4 * p + c]
  {
    assert (3 * p + c) / 3 == p && (3 * p + c) % 3 == c;
  }

  /** The packing loop, writing into `float`. */
  method PackRgb(rgba: seq<int>, float: array<int>)
    requires |rgba| % 4 == 0 && float.Length == |rgba| / 4 * 3
    modifies float
    ensures float[..] == Rgb(rgba)
  {
    var i, j := 0, 0;
    while i < |rgba|
      invariant i % 4 == 0 && 0 <= i <= |rgba| && j == i / 4 * 3
      invariant forall q :: 0 <= q < j ==> float[q] == Rgb(rgba)[q]
    {
      float[j] := rgba[i];
      float[j + 1] := rgba[i + 1];
      float[j + 2] := rgba[i + 2];
      i, j := i + 4, j + 3;
    }
  }

  /** Rows `0 .. rows-1` of plane `c` hold channel `c` of their pixels. */
  ghost predicate RowsFilled(chw: seq<int>, hwc: seq<int>, c: nat, rows: nat) {
    && |chw| == TensorSize && |hwc| == TensorSize
    && forall y, x :: 0 <= y < rows && InFrame(c, y, x) ==> chw[ChwIndex(c, y, x)] == hwc[HwcIndex(c, y, x)]
  }

  /** One pass of `for (x = 0; x < size; x++) chw[p++] = float[(y * size + x) * 3 + c]`. */
  method CopyRow(float: array<int>, chw: array<int>, c: nat, y: nat, p: nat) returns (p': nat)
    requires float != chw && float.Length == TensorSize && chw.Length == TensorSize
    requires c < 3 && y < Size && p == ChwIndex(c, y, 0)
    modifies chw
    ensures p' == p + Size
    ensures forall x :: 0 <= x < Size ==> chw[ChwIndex(c, y, x)] == float[HwcIndex(c, y, x)]
    ensures forall q :: 0 <= q < TensorSize && (q < p || p' <= q) ==> chw[q] == old(chw[q])
  {
    p' := p;
    for x := 0 to Size
      invariant p' == ChwIndex(c, y, x)
      invariant forall x' :: 0 <= x' < x ==> chw[ChwIndex(c, y, x')] == float[HwcIndex(c, y, x')]
      invariant forall q :: 0 <= q < TensorSize && (q < p || p' <= q) ==> chw[q] == old(chw[q])
    {
      chw[p'] := float[(y * Size + x) * 3 + c];
      p' := p' + 1;
    }
  }

  /** One of the three loop nests: plane `c`, rows in order, continuing the cursor. */
  method CopyPlane(float: array<int>, chw: array<int>, c: nat, p: nat) returns (p': nat)
    requires float != chw && float.Length == TensorSize && chw.Length == TensorSize
    requires c < 3 && p == c * Plane
    modifies chw
    ensures p' == p + Plane
    ensures RowsFilled(chw[..], float[..], c, Size)
    ensures forall q :: 0 <= q < TensorSize && (q < p || p' <= q) ==> chw[q] == old(chw[q])
  {
    p' := p;
    for y := 0 to Size
      invariant p' == ChwIndex(c, y, 0)
      invariant RowsFilled(chw[..], float[..], c, y)
      invariant forall q :: 0 <= q < TensorSize && (q < p || p' <= q) ==> chw[q] == old(chw[q])
    {
      ghost var before := chw[..];
      p' := CopyRow(float, chw, c, y, p');
      forall y', x | 0 <= y' < y && InFrame(c, y', x)
        ensures chw[ChwIndex(c, y', x)] == float[HwcIndex(c, y', x)]
      {
        assert chw[ChwIndex(c, y', x)] == before[ChwIndex(c, y', x)];
      }
    }
  }

  /** The three loop nests of the HWC to CHW rearrangement, one cursor `p` running
      through all of `chw`. */
  method ToChw(float: array<int>, chw: array<int>)
    requires float != chw && float.Length == TensorSize && chw.Length == TensorSize
    modifies chw
    ensures IsChwOf(chw[..], float[..])
  {
    var p := 0;
    p := CopyPlane(float, chw, 0, p);
    ghost var after0 := chw[..];
    p := CopyPlane(float, chw, 1, p);
    ghost var after1 := chw[..];
    p := CopyPlane(float, chw, 2, p);
    forall c, y, x | InFrame(c, y, x)
      ensures chw[ChwIndex(c, y, x)] == float[HwcIndex(c, y, x)]
    {
      if c == 0 {
        assert after0[ChwIndex(0, y, x)] == float[HwcIndex(0, y, x)];
        assert after1[ChwIndex(0, y, x)] == after0[ChwIndex(0, y, x)];
      } else if c == 1 {
        assert after1[ChwIndex(1, y, x)] == float[HwcIndex(1, y, x)];
      }
    }
  }

  /** An `ort.Tensor('float32', data, dims)`: it wraps the buffer itself, not a copy. */
  datatype Tensor = Tensor(data: array<int>, dims: seq<nat>)

  const NchwDims: seq<nat> := [1, 3, Size, Size]
  const NhwcDims: seq<nat> := [1, Size, Size, 3]

  /** The error `videoToTensor` throws before the camera delivers frames. */
  const VideoNotReady: string := "Video not ready"

  /** `imageToTensor` after the image is drawn: fresh buffers on every call. `rgba` is
      the `getImageData` of the 224 by 224 canvas. */
  method ImageToTensor(rgba: seq<int>, meta: Option<DimsValue>) returns (t: Tensor)
    requires |rgba| == 4 * Plane
    ensures fresh(t.data)
    ensures IsNchw(meta) ==> t.dims == NchwDims && IsChwOf(t.data[..], Rgb(rgba))
    ensures !IsNchw(meta) ==> t.dims == NhwcDims && t.data[..] == Rgb(rgba)
  {
    var isNchw := IsNchw(meta);
    var float := new int[TensorSize];
    PackRgb(rgba, float);
    if isNchw {
      var chw := new int[TensorSize];
      ToChw(float, chw);
      return Tensor(chw, NchwDims);
    }
    return Tensor(float, NhwcDims);
  }

  /** The `preprocess` object: the two Float32 buffers every video frame reuses. */
  class Preprocessor {
    const float: array<int>
    const chw: array<int>

    ghost predicate Valid()
      reads this
    {
      float.Length == TensorSize && chw.Length == TensorSize && float != chw
    }

    constructor ()
      ensures Valid() && fresh(float) && fresh(chw)
    {
      float := new int[TensorSize];
      chw := new int[TensorSize];
    }

    /** `videoToTensor` after the frame is drawn: `videoWidth` and `videoHeight` are
        those of the preview video (0 when there is none), `rgba` the `getImageData`
        of the canvas. The tensor wraps one of the shared buffers, so the next frame
        overwrites the data of this one. */
    method VideoToTensor(videoWidth: nat, videoHeight: nat, rgba: seq<int>, meta: Option<DimsValue>)
      returns (r: Result<Tensor, string>)
      requires Valid() && |rgba| == 4 * Plane
      modifies float, chw
      ensures videoWidth == 0 || videoHeight == 0 ==>
                r == Err(VideoNotReady) && unchanged(float) && unchanged(chw)
      ensures videoWidth > 0 && videoHeight > 0 ==> float[..] == Rgb(rgba)
      ensures videoWidth > 0 && videoHeight > 0 && IsNchw(meta) ==>
                r == Ok(Tensor(chw, NchwDims)) && IsChwOf(chw[..], Rgb(rgba))
      ensures videoWidth > 0 && videoHeight > 0 && !IsNchw(meta) ==>
                r == Ok(Tensor(float, NhwcDims)) && unchanged(chw)
    {
      if videoWidth == 0 || videoHeight == 0 {
        return Err(VideoNotReady);
      }
      var isNchw := IsNchw(meta);
      PackRgb(rgba, float);
      if isNchw {
        ToChw(float, chw);
        return Ok(Tensor(chw, NchwDims));
      }
      return Ok(Tensor(float, NhwcDims));
    }
  }
}
