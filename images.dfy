/** Batches of decoded RGB images packed into one flat byte buffer in
    batch-height-width-channel order. Decoding a file is an abstract function
    from a path to an image (or a failure). */
module Images {
  import opened Wrappers

  type Byte = b: int | 0 <= b < 256

  /** One pixel of an 8-bit RGB image. */
  datatype Rgb = Rgb(r: Byte, g: Byte, b: Byte)

  /** An image as the decoder hands it over: its dimensions and its pixels in
      row-major order. */
  datatype RawImage = RawImage(width: nat, height: nat, pixels: seq<Rgb>)

  type RgbImage = img: RawImage | |img.pixels| == img.width * img.height
    witness RawImage(0, 0, [])

  /** The image decoder: a path either decodes to an RGB image or fails. */
  type Decoder = string -> Option<RgbImage>

  /** The bytes of a run of pixels: each pixel's red, green and blue, in pixel
      order. */
  function PixelBytes(px: seq<Rgb>): (r: seq<Byte>)
    ensures |r| == 3 * |px|
    decreases |px|
  {
    if px == [] then []
    else
      var last := px[|px| - 1];
      PixelBytes(px[..|px| - 1]) + [last.r, last.g, last.b]
  }

  /** Pixel `k` is stored as the three bytes from `3*k` on: red, green, blue. */
  lemma {:induction false} PixelBytesAt(px: seq<Rgb>, k: nat)
    requires k < |px|
    ensures PixelBytes(px)[3 * k] == px[k].r
    ensures PixelBytes(px)[3 * k + 1] == px[k].g
    ensures PixelBytes(px)[3 * k + 2] == px[k].b
    decreases |px|
  {
    var init := px[..|px| - 1];
    if k < |px| - 1 {
      PixelBytesAt(init, k);
      assert init[k] == px[k];
    }
  }

  /** The bytes of two runs of pixels are the bytes of the first then those of
      the second. */
  lemma {:induction false} PixelBytesAppend(a: seq<Rgb>, b: seq<Rgb>)
    ensures PixelBytes(a + b) == PixelBytes(a) + PixelBytes(b)
    decreases |b|
  {
    if b != [] {
      var b' := b[..|b| - 1];
      assert (a + b)[..|a + b| - 1] == a + b';
      PixelBytesAppend(a, b');
    } else {
      assert a + b == a;
    }
  }

  /** A batch of images sharing one shape `[batch, height, width, channels]`,
      whose pixel bytes are appended to `data` image after image. */
  class RgbImageBatch {
    var data: seq<Byte>
    var shape: seq<nat>

    ghost predicate Valid()
      reads this
    {
      |shape| == 4 && shape[3] == 3
    }

    /** A new batch of the given shape, which must have four dimensions of which
        the last (the channels) is 3; no bytes yet. */
    constructor (shape: seq<nat>)
      requires |shape| == 4 && shape[3] == 3
      ensures Valid() && this.shape == shape && data == []
    {
      this.shape := shape;
      data := [];
    }

    /** Append the red, green and blue bytes of every pixel of `img`. */
    method PushRgbPixels(img: RgbImage)
      modifies this
      ensures data == old(data) + PixelBytes(img.pixels)
      ensures shape == old(shape)
    {
      for i := 0 to |img.pixels|
        invariant data == old(data) + PixelBytes(img.pixels[..i])
        invariant shape == old(shape)
      {
        var px := img.pixels[i];
        assert img.pixels[..i + 1][..i] == img.pixels[..i];
        data := data + [px.r];
        data := data + [px.g];
        data := data + [px.b];
      }
      assert img.pixels[..|img.pixels|] == img.pixels;
    }

    function BatchSize(): nat
      reads this
      requires |shape| >= 1
    {
      shape[0]
    }

    function Height(): nat
      reads this
      requires |shape| >= 2
    {
      shape[1]
    }

    function Width(): nat
      reads this
      requires |shape| >= 3
    {
      shape[2]
    }

    /** Always 3 in a batch built by the constructor. */
    function Channels(): (r: nat)
      reads this
      requires |shape| >= 4
      ensures Valid() ==> r == 3
    {
      shape[3]
    }
  }

  // ----- The generic loader -----

  /** The shape handed to `onDims`: the number of paths, then the first image's
      height and width, then three channels. */
  function ShapeOf(n: nat, img: RgbImage): (r: seq<nat>)
    ensures |r| == 4 && r[0] == n && r[1] == img.height && r[2] == img.width && r[3] == 3
  {
    [n, img.height, img.width, 3]
  }

  /** Whether every path from index `i` on decodes to a `w` by `h` image. */
  ghost predicate DecodesFrom(paths: seq<string>, decode: Decoder, w: nat, h: nat, i: nat) {
    forall j :: i <= j < |paths| ==>
      decode(paths[j]).Some? && decode(paths[j]).value.width == w && decode(paths[j]).value.height == h
  }

  /** The rest of the loader's loop, from index `i` on, with the batch built so
      far: each path is decoded, checked against the first image's dimensions
      and handed to `onImg` with its index. */
  function LoadRest<T>(paths: seq<string>, decode: Decoder, w: nat, h: nat,
                       onImg: (T, nat, RgbImage) -> Result<T>, batch: T, i: nat): Result<T>
    requires i <= |paths|
    decreases |paths| - i
  {
    if i == |paths| then Ok(batch)
    else
      match decode(paths[i])
      case None => Fail
      case Some(img) =>
        if img.width != w || img.height != h then Fail
        else
          match onImg(batch, i, img)
          case Fail => Fail
          case Ok(b) => LoadRest(paths, decode, w, h, onImg, b, i + 1)
  }

  /** What the loader returns: nothing for an empty path list; otherwise the
      first image fixes the shape, `onDims` builds the batch from it, and every
      image, the first included, goes through `onImg` in path order. */
  function LoadBatchSpec<T>(paths: seq<string>, decode: Decoder, onDims: seq<nat> -> Result<T>,
                            onImg: (T, nat, RgbImage) -> Result<T>): Result<T>
  {
    if paths == [] then Fail
    else
      match decode(paths[0])
      case None => Fail
      case Some(img) =>
        match onDims(ShapeOf(|paths|, img))
        case Fail => Fail
        case Ok(b) =>
          match onImg(b, 0, img)
          case Fail => Fail
          case Ok(b1) => LoadRest(paths, decode, img.width, img.height, onImg, b1, 1)
  }

  /** The loader, over any batch type: the callbacks pass the batch along
      instead of updating it in place. */
  method LoadBatch<T>(paths: seq<string>, decode: Decoder, onDims: seq<nat> -> Result<T>,
                      onImg: (T, nat, RgbImage) -> Result<T>) returns (r: Result<T>)
    ensures r == LoadBatchSpec(paths, decode, onDims, onImg)
  {
    if |paths| == 0 {
      return Fail;
    }
    var first := decode(paths[0]);
    if first.None? {
      return Fail;
    }
    var img := first.value;
    var width, height := img.width, img.height;
    var made := onDims(ShapeOf(|paths|, img));
    if made.Fail? {
      return Fail;
    }
    var pushed := onImg(made.value, 0, img);
    if pushed.Fail? {
      return Fail;
    }
    var batch := pushed.value;
    for i := 1 to |paths|
      invariant LoadRest(paths, decode, width, height, onImg, batch, i) == LoadBatchSpec(paths, decode, onDims, onImg)
    {
      var next := decode(paths[i]);
      if next.None? {
        return Fail;
      }
      var im := next.value;
      if im.width != width || im.height != height {
        return Fail;
      }
      var step := onImg(batch, i, im);
      if step.Fail? {
        return Fail;
      }
      batch := step.value;
    }
    return Ok(batch);
  }

  /** Callbacks that record the indices `onImg` is given. */
  function RecordDims(shape: seq<nat>): Result<seq<int>> {
    Ok([])
  }

  function RecordIndex(seen: seq<int>, i: nat, img: RgbImage): Result<seq<int>> {
    Ok(seen + [i])
  }

  /** `onImg` sees every image once, in path order, with the indices 0 to n-1:
      a callback that records the index it is given ends with exactly those
      indices, whenever every path decodes to an image of the first one's
      dimensions. */
  lemma CallbackOrder(paths: seq<string>, decode: Decoder)
    requires paths != [] && decode(paths[0]).Some?
    requires DecodesFrom(paths, decode, decode(paths[0]).value.width, decode(paths[0]).value.height, 1)
    ensures LoadBatchSpec(paths, decode, RecordDims, RecordIndex) == Ok(seq(|paths|, k => k))
  {
    var img := decode(paths[0]).value;
    assert RecordDims(ShapeOf(|paths|, img)) == Ok([]);
    var none: seq<int> := [];
    assert none + [0] == [0];
    assert RecordIndex(none, 0, img) == Ok([0]);
    assert [0] == seq(1, k => k);
    RecordFrom(paths, decode, img.width, img.height, 1);
    assert LoadBatchSpec(paths, decode, RecordDims, RecordIndex)
      == LoadRest(paths, decode, img.width, img.height, RecordIndex, [0], 1);
  }

  lemma {:induction false} RecordFrom(paths: seq<string>, decode: Decoder, w: nat, h: nat, i: nat)
    requires 1 <= i <= |paths| && DecodesFrom(paths, decode, w, h, i)
    ensures LoadRest(paths, decode, w, h, RecordIndex, seq(i, k => k), i) == Ok(seq(|paths|, k => k))
    decreases |paths| - i
  {
    if i < |paths| {
      assert seq(i, k => k) + [i] == seq(i + 1, k => k);
      RecordFrom(paths, decode, w, h, i + 1);
    }
  }

  // ----- Packing a batch -----

  /** The batch as a value: its shape and its bytes. */
  datatype Packing = Packing(shape: seq<nat>, data: seq<Byte>)

  /** The callbacks that build a packed batch: an empty batch of the given
      shape, then each image's pixel bytes appended. */
  function PackDims(shape: seq<nat>): Result<Packing> {
    Ok(Packing(shape, []))
  }

  function PackImg(b: Packing, i: nat, img: RgbImage): Result<Packing> {
    Ok(Packing(b.shape, b.data + PixelBytes(img.pixels)))
  }

  /** The images that the paths decode to, in path order, when all decode. */
  function DecodeAll(paths: seq<string>, decode: Decoder): (r: Option<seq<RgbImage>>)
    ensures r.Some? <==> forall j :: 0 <= j < |paths| ==> decode(paths[j]).Some?
    ensures r.Some? ==> |r.value| == |paths|
    ensures r.Some? ==> forall j :: 0 <= j < |paths| ==> r.value[j] == decode(paths[j]).value
    decreases |paths|
  {
    if paths == [] then Some([])
    else
      match decode(paths[0])
      case None => None
      case Some(img) =>
        match DecodeAll(paths[1..], decode)
        case None => None
        case Some(rest) => Some([img] + rest)
  }

  /** Whether all images have the same width and height as the first. */
  predicate SameDims(imgs: seq<RgbImage>) {
    forall j :: 0 <= j < |imgs| ==> imgs[j].width == imgs[0].width && imgs[j].height == imgs[0].height
  }

  /** The images of a batch: there must be at least one path, every path must
      decode, and every image must have the first image's dimensions. */
  function DecodeBatch(paths: seq<string>, decode: Decoder): Result<seq<RgbImage>> {
    if paths == [] then Fail
    else
      match DecodeAll(paths, decode)
      case None => Fail
      case Some(imgs) => if SameDims(imgs) then Ok(imgs) else Fail
  }

  /** The shape of a batch of images: their number, height, width and 3. */
  function BatchShape(imgs: seq<RgbImage>): (r: seq<nat>)
    requires imgs != []
    ensures |r| == 4 && r[0] == |imgs| && r[3] == 3
  {
    ShapeOf(|imgs|, imgs[0])
  }

  /** The bytes of a batch: each image's pixel bytes, in image order. */
  function Packed(imgs: seq<RgbImage>): seq<Byte>
    decreases |imgs|
  {
    if imgs == [] then [] else PixelBytes(imgs[0].pixels) + Packed(imgs[1..])
  }

  /** With every image giving `size` bytes, a batch of `n` images holds
      `n*size` bytes. */
  lemma {:induction false} PackedLength(imgs: seq<RgbImage>, size: nat)
    requires forall j :: 0 <= j < |imgs| ==> |imgs[j].pixels| * 3 == size
    ensures |Packed(imgs)| == |imgs| * size
    decreases |imgs|
  {
    if imgs != [] {
      var rest := imgs[1..];
      assert forall j :: 0 <= j < |rest| ==> rest[j] == imgs[j + 1];
      PackedLength(rest, size);
      PackedUnfold(imgs);
      MulStep(|rest|, size);
    }
  }

  lemma MulStep(a: nat, size: nat)
    ensures (a + 1) * size == a * size + size
  {
  }

  /** The first part of a concatenation is its prefix of that length. */
  lemma SliceBefore<T>(x: seq<T>, y: seq<T>)
    ensures (x + y)[0..|x|] == x
  {
  }

  /** A slice lying past the first part of a concatenation is a slice of the second. */
  lemma SliceAfter<T>(x: seq<T>, y: seq<T>, lo: nat, hi: nat)
    requires |x| <= lo <= hi <= |x| + |y|
    ensures (x + y)[lo..hi] == y[lo - |x|..hi - |x|]
  {
  }

  lemma PackedUnfold(imgs: seq<RgbImage>)
    requires imgs != []
    ensures Packed(imgs) == PixelBytes(imgs[0].pixels) + Packed(imgs[1..])
  {
  }

  /** Past the first image, a block of the batch is a block of the batch
      without its first image, one image earlier. */
  lemma PackedShift(imgs: seq<RgbImage>, size: nat, lo: nat)
    requires imgs != [] && |imgs[0].pixels| * 3 == size
    requires size <= lo && lo + size <= |Packed(imgs)|
    ensures lo <= |Packed(imgs[1..])|
    ensures Packed(imgs)[lo..lo + size] == Packed(imgs[1..])[lo - size..lo]
  {
    PackedUnfold(imgs);
    SliceAfter(PixelBytes(imgs[0].pixels), Packed(imgs[1..]), lo, lo + size);
  }

  /** Where image `i` starts when every image takes `size` bytes: `i*size`,
      counted by repeated addition. */
  function Offset(i: nat, size: nat): nat {
    if i == 0 then 0 else Offset(i - 1, size) + size
  }

  lemma {:induction false} OffsetMul(i: nat, size: nat)
    ensures Offset(i, size) == i * size
  {
    if i > 0 {
      OffsetMul(i - 1, size);
      MulStep(i - 1, size);
    }
  }

  /** With every image giving `size` bytes, the bytes of image `i` are the
      slice of the batch from `Offset(i, size)` to `Offset(i + 1, size)`. */
  lemma {:induction false} PackedAt(imgs: seq<RgbImage>, size: nat, i: nat)
    requires forall j :: 0 <= j < |imgs| ==> |imgs[j].pixels| * 3 == size
    requires i < |imgs|
    ensures Offset(i, size) <= Offset(i + 1, size) <= |Packed(imgs)|
    ensures Packed(imgs)[Offset(i, size)..Offset(i + 1, size)] == PixelBytes(imgs[i].pixels)
    decreases |imgs|
  {
    if i == 0 {
      PackedAtFirst(imgs, size);
    } else {
      var rest := imgs[1..];
      assert forall j :: 0 <= j < |rest| ==> rest[j] == imgs[j + 1];
      PackedAt(rest, size, i - 1);
      PackedAtNext(imgs, size, i);
    }
  }

  /** The first image's bytes open the batch. */
  lemma PackedAtFirst(imgs: seq<RgbImage>, size: nat)
    requires imgs != [] && |imgs[0].pixels| * 3 == size
    ensures Offset(0, size) <= Offset(1, size) <= |Packed(imgs)|
    ensures Packed(imgs)[Offset(0, size)..Offset(1, size)] == PixelBytes(imgs[0].pixels)
  {
    assert Offset(0, size) == 0 && Offset(1, size) == size;
    PackedUnfold(imgs);
    SliceBefore(PixelBytes(imgs[0].pixels), Packed(imgs[1..]));
  }

  /** Image `i > 0` sits in the batch where it sits in the batch without the
      first image, one image further on. */
  lemma PackedAtNext(imgs: seq<RgbImage>, size: nat, i: nat)
    requires 0 < i < |imgs| && |imgs[0].pixels| * 3 == size
    requires Offset(i, size) <= |Packed(imgs[1..])|
    requires Offset(i - 1, size) <= Offset(i, size)
    requires Packed(imgs[1..])[Offset(i - 1, size)..Offset(i, size)] == PixelBytes(imgs[i].pixels)
    ensures Offset(i, size) <= Offset(i + 1, size) <= |Packed(imgs)|
    ensures Packed(imgs)[Offset(i, size)..Offset(i + 1, size)] == PixelBytes(imgs[i].pixels)
  {
    var lo := Offset(i, size);
    assert Offset(i - 1, size) == lo - size && Offset(i + 1, size) == lo + size;
    PackedUnfold(imgs);
    PackedShift(imgs, size, lo);
  }

  /** With every image giving `size` bytes, the bytes of image `i` are the
      slice of the batch starting at `i*size`. */
  lemma PackedSlice(imgs: seq<RgbImage>, size: nat, i: nat)
    requires forall j :: 0 <= j < |imgs| ==> |imgs[j].pixels| * 3 == size
    requires i < |imgs|
    ensures (i + 1) * size <= |Packed(imgs)|
    ensures Packed(imgs)[i * size..(i + 1) * size] == PixelBytes(imgs[i].pixels)
  {
    PackedAt(imgs, size, i);
    OffsetMul(i, size);
    OffsetMul(i + 1, size);
  }

  /** A batch of `n` images of `w` by `h` pixels holds `n*h*w*3` bytes, and the
      bytes of image `i` are the slice starting at `i*h*w*3`. */
  lemma PackedLayout(imgs: seq<RgbImage>, w: nat, h: nat, i: nat)
    requires forall j :: 0 <= j < |imgs| ==> imgs[j].width == w && imgs[j].height == h
    requires i < |imgs|
    ensures |Packed(imgs)| == |imgs| * (h * w * 3)
    ensures var size := h * w * 3;
      && (i + 1) * size <= |Packed(imgs)|
      && Packed(imgs)[i * size..(i + 1) * size] == PixelBytes(imgs[i].pixels)
  {
    forall j | 0 <= j < |imgs| ensures |imgs[j].pixels| * 3 == h * w * 3 {
      assert |imgs[j].pixels| == w * h;
    }
    PackedLength(imgs, h * w * 3);
    PackedSlice(imgs, h * w * 3, i);
  }

  lemma PackedCons(imgs: seq<RgbImage>, i: nat)
    requires i < |imgs|
    ensures Packed(imgs[i..]) == PixelBytes(imgs[i].pixels) + Packed(imgs[i + 1..])
  {
    assert imgs[i..][1..] == imgs[i + 1..];
  }

  /** Success from index `i` on: the packing accumulates the remaining images'
      bytes. */
  lemma {:induction false} PackRestOk(paths: seq<string>, decode: Decoder, imgs: seq<RgbImage>,
                                      w: nat, h: nat, shape: seq<nat>, acc: seq<Byte>, i: nat)
    requires i <= |paths| == |imgs|
    requires forall j :: i <= j < |paths| ==> decode(paths[j]) == Some(imgs[j])
    requires forall j :: i <= j < |imgs| ==> imgs[j].width == w && imgs[j].height == h
    ensures LoadRest(paths, decode, w, h, PackImg, Packing(shape, acc), i) == Ok(Packing(shape, acc + Packed(imgs[i..])))
    decreases |paths| - i
  {
    if i == |paths| {
      assert imgs[i..] == [];
      assert acc + [] == acc;
    } else {
      var px := PixelBytes(imgs[i].pixels);
      assert LoadRest(paths, decode, w, h, PackImg, Packing(shape, acc), i)
        == LoadRest(paths, decode, w, h, PackImg, Packing(shape, acc + px), i + 1);
      PackRestOk(paths, decode, imgs, w, h, shape, acc + px, i + 1);
      PackedCons(imgs, i);
      assert (acc + px) + Packed(imgs[i + 1..]) == acc + (px + Packed(imgs[i + 1..]));
    }
  }

  /** Failure from index `i` on: some remaining path does not decode, or decodes
      to an image of other dimensions. */
  lemma {:induction false} PackRestFail(paths: seq<string>, decode: Decoder, w: nat, h: nat, b: Packing, i: nat)
    requires i <= |paths| && !DecodesFrom(paths, decode, w, h, i)
    ensures LoadRest(paths, decode, w, h, PackImg, b, i) == Fail
    decreases |paths| - i
  {
    var img := decode(paths[i]);
    if img.Some? && img.value.width == w && img.value.height == h {
      PackRestFail(paths, decode, w, h, Packing(b.shape, b.data + PixelBytes(img.value.pixels)), i + 1);
    }
  }

  /** The generic loader with the packing callbacks is exactly: fail unless the
      batch decodes, else the batch's shape and its packed bytes. */
  lemma LoadBatchPacks(paths: seq<string>, decode: Decoder)
    ensures LoadBatchSpec(paths, decode, PackDims, PackImg) ==
      match DecodeBatch(paths, decode)
      case Fail => Fail
      case Ok(imgs) => Ok(Packing(BatchShape(imgs), Packed(imgs)))
  {
    if paths != [] && decode(paths[0]).Some? {
      var first := decode(paths[0]).value;
      var w, h := first.width, first.height;
      var b1 := Packing(ShapeOf(|paths|, first), PixelBytes(first.pixels));
      var none: seq<Byte> := [];
      assert none + PixelBytes(first.pixels) == PixelBytes(first.pixels);
      assert LoadBatchSpec(paths, decode, PackDims, PackImg) == LoadRest(paths, decode, w, h, PackImg, b1, 1);
      var all := DecodeAll(paths, decode);
      if DecodesFrom(paths, decode, w, h, 1) {
        assert forall j :: 0 <= j < |paths| ==> decode(paths[j]).Some?;
        var imgs := all.value;
        assert imgs[0] == first;
        assert SameDims(imgs);
        assert DecodeBatch(paths, decode) == Ok(imgs);
        PackRestOk(paths, decode, imgs, w, h, b1.shape, b1.data, 1);
        assert Packed(imgs) == PixelBytes(first.pixels) + Packed(imgs[1..]);
      } else {
        PackRestFail(paths, decode, w, h, b1, 1);
        if all.Some? {
          var j :| 1 <= j < |paths| && !(decode(paths[j]).Some? && decode(paths[j]).value.width == w
            && decode(paths[j]).value.height == h);
          assert all.value[j] == decode(paths[j]).value;
          assert !SameDims(all.value);
        }
      }
    }
  }

  /** A batch decodes exactly when there is at least one path, every path
      decodes and every image has the first image's width and height. */
  lemma DecodeBatchOk(paths: seq<string>, decode: Decoder)
    ensures DecodeBatch(paths, decode).Ok? <==>
      paths != [] &&
      (forall j :: 0 <= j < |paths| ==> decode(paths[j]).Some?) &&
      forall j :: 0 <= j < |paths| ==>
        decode(paths[j]).value.width == decode(paths[0]).value.width &&
        decode(paths[j]).value.height == decode(paths[0]).value.height
  {
    var all := DecodeAll(paths, decode);
    if paths != [] && all.Some? {
      assert forall j :: 0 <= j < |paths| ==> all.value[j] == decode(paths[j]).value;
    }
  }

  /** In a decoded batch of `n` images of `h` rows and `w` columns, the bytes
      number `n*h*w*3` and image `i` (the one read from `paths[i]`) occupies
      bytes `i*h*w*3` up to `(i+1)*h*w*3`, pixel by pixel in R, G, B order. */
  lemma BatchLayout(paths: seq<string>, decode: Decoder, i: nat)
    requires DecodeBatch(paths, decode).Ok? && i < |paths|
    ensures var imgs := DecodeBatch(paths, decode).value;
      var shape := BatchShape(imgs);
      var size := shape[1] * shape[2] * shape[3];
      shape[0] == |paths| &&
      |Packed(imgs)| == shape[0] * size &&
      Packed(imgs)[i * size..(i + 1) * size] == PixelBytes(decode(paths[i]).value.pixels)
  {
    var imgs := DecodeBatch(paths, decode).value;
    var h, w := imgs[0].height, imgs[0].width;
    PackedLayout(imgs, w, h, i);
  }

  /** Load a batch into one `RgbImageBatch`: the first image fixes the shape,
      each image's pixels are pushed in path order. It fails when the list is
      empty, a path does not decode or an image differs in size from the first;
      otherwise the batch has shape `[n, h, w, 3]` and holds every image's RGB
      bytes in path order. */
  method LoadBhwcRgbImageBatch(paths: seq<string>, decode: Decoder) returns (r: Result<RgbImageBatch>)
    ensures r.Ok? <==> DecodeBatch(paths, decode).Ok?
    ensures r.Ok? ==> fresh(r.value) && r.value.Valid()
    ensures r.Ok? ==> r.value.shape == BatchShape(DecodeBatch(paths, decode).value)
    ensures r.Ok? ==> r.value.data == Packed(DecodeBatch(paths, decode).value)
    ensures r.Ok? ==> (
      && paths != [] && decode(paths[0]).Some?
      && r.value.BatchSize() == |paths| && r.value.Channels() == 3
      && r.value.Height() == decode(paths[0]).value.height
      && r.value.Width() == decode(paths[0]).value.width
      && |r.value.data| == r.value.BatchSize() * (r.value.Height() * r.value.Width() * r.value.Channels()))
  {
    LoadBatchPacks(paths, decode);
    if DecodeBatch(paths, decode).Ok? {
      BatchLayout(paths, decode, 0);
      DecodeBatchOk(paths, decode);
    }
    if |paths| == 0 {
      return Fail;
    }
    var first := decode(paths[0]);
    if first.None? {
      return Fail;
    }
    var img := first.value;
    var width, height := img.width, img.height;
    var batch := new RgbImageBatch(ShapeOf(|paths|, img));
    batch.PushRgbPixels(img);
    for i := 1 to |paths|
      invariant fresh(batch) && batch.Valid()
      invariant LoadRest(paths, decode, width, height, PackImg, Packing(batch.shape, batch.data), i)
        == LoadBatchSpec(paths, decode, PackDims, PackImg)
    {
      var next := decode(paths[i]);
      if next.None? {
        return Fail;
      }
      var im := next.value;
      if im.width != width || im.height != height {
        return Fail;
      }
      batch.PushRgbPixels(im);
    }
    return Ok(batch);
  }
}
