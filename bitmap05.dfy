/**
 * The bitmap image of rnote v0.5 (`rnotev0_5::stroke::bitmapimage`): a raw pixel buffer with its size, memory
 * format and target rectangle, the buffer validity rule, and the conversion from the v0.4 base64 image.
 * The `image` crate and the base64 decoder are abstract: they are the fields of `ImageLib`.
 */
module BitmapImagesV05 {
  import opened Vectors
  import opened Wrappers
  import opened Geometry
  import ShapesV05
  import StrokesV04

  newtype byte = x: int | 0 <= x < 256

  datatype ImageMemoryFormat = R8g8b8a8Premultiplied | B8g8r8a8Premultiplied

  /** `ImageMemoryFormat::default()` */
  function DefaultMemoryFormat(): (f: ImageMemoryFormat)
    ensures f == R8g8b8a8Premultiplied
  {
    R8g8b8a8Premultiplied
  }

  /** `Image`: the pixel data, the target rectangle, the `u32` pixel size and the memory format. */
  datatype Image = Image(data: seq<byte>, rect: ShapesV05.Rectangle, pixel_width: nat, pixel_height: nat,
                         memory_format: ImageMemoryFormat)

  /** `Image::default()`: no data, a default rectangle, size (0, 0), RGBA. */
  function DefaultImage(): (img: Image)
    ensures img.data == [] && img.pixel_width == 0 && img.pixel_height == 0
    ensures img.rect == ShapesV05.DefaultRectangle() && img.memory_format == R8g8b8a8Premultiplied
  {
    Image([], ShapesV05.DefaultRectangle(), 0, 0, DefaultMemoryFormat())
  }

  datatype BitmapImage = BitmapImage(image: Image, rectangle: ShapesV05.Rectangle)

  /** `BitmapImage::default()` */
  function DefaultBitmapImage(): (b: BitmapImage)
    ensures b.image == DefaultImage() && b.rectangle == ShapesV05.DefaultRectangle()
  {
    BitmapImage(DefaultImage(), ShapesV05.DefaultRectangle())
  }

  // The image library, abstract

  /** A decoded image of the `image` crate: its size and the bytes `into_rgba8().to_vec()` gives. */
  datatype DynamicImage = DynamicImage(width: nat, height: nat, rgba8: seq<byte>)

  /** A four-channel 8-bit `ImageBuffer` (RGBA or BGRA). */
  datatype ImageBuffer = ImageBuffer(width: nat, height: nat, data: seq<byte>)

  /** `image::ImageFormat`, restricted to the two formats the converter asks for. */
  datatype ImageFormat = PngFormat | JpegFormat

  /** `image::ImageOutputFormat`, kept as an uninterpreted tag. */
  datatype ImageOutputFormat = ImageOutputFormat(tag: string)

  /**
   * The library calls the conversions make, as given total maps: `base64::decode`, `Reader::decode` for a chosen
   * format, `ImageBuffer::from_vec`, the BGRA to RGBA conversion of `into_rgba8`, and `DynamicImage::write_to`.
   */
  datatype ImageLib = ImageLib(base64Decode: string -> Result<seq<byte>>,
                               decode: (seq<byte>, ImageFormat) -> Result<DynamicImage>,
                               fromVec: (nat, nat, seq<byte>) -> Option<ImageBuffer>,
                               bgraToRgba: ImageBuffer -> ImageBuffer,
                               writeTo: (ImageBuffer, ImageOutputFormat) -> Result<seq<byte>>)

  // Image operations

  /**
   * `From<DynamicImage>`: the RGBA bytes and size of the decoded image, placed on the rectangle of the box from
   * (0, 0) to (width, height).
   */
  function FromDynamicImage(dynamicImage: DynamicImage): (img: Image)
    ensures img.pixel_width == dynamicImage.width && img.pixel_height == dynamicImage.height
    ensures img.data == dynamicImage.rgba8 && img.memory_format == R8g8b8a8Premultiplied
    ensures img.rect == ShapesV05.FromP2dAabb(AABB(Zero(), Vec2(dynamicImage.width as real, dynamicImage.height as real)))
  {
    var pixelWidth := dynamicImage.width;
    var pixelHeight := dynamicImage.height;
    var memoryFormat := R8g8b8a8Premultiplied;
    var data := dynamicImage.rgba8;
    var bounds := AABB(Vec2(0.0, 0.0), Vec2(pixelWidth as real, pixelHeight as real));
    Image(data, ShapesV05.FromP2dAabb(bounds), pixelWidth, pixelHeight, memoryFormat)
  }

  /** The rectangle of a decoded image spans exactly its pixels: corners (0, 0) and (width, height). */
  lemma FromDynamicImageRect(dynamicImage: DynamicImage)
    ensures ShapesV05.OutlineLines(FromDynamicImage(dynamicImage).rect)[0].start == Zero()
    ensures ShapesV05.OutlineLines(FromDynamicImage(dynamicImage).rect)[2].start
         == Vec2(dynamicImage.width as real, dynamicImage.height as real)
  {
    ShapesV05.FromP2dAabbOutline(AABB(Zero(), Vec2(dynamicImage.width as real, dynamicImage.height as real)));
  }

  /**
   * `assert_valid`, as written: it rejects a zero width, tested twice, and a data length other than
   * `4 * width * height`. A zero height is never rejected on its own.
   */
  function AssertValid(img: Image): (r: Result<()>)
    ensures r.Err? <==> img.pixel_width == 0 || |img.data| != 4 * img.pixel_width * img.pixel_height
  {
    if img.pixel_width == 0 || img.pixel_width == 0 || |img.data| != 4 * img.pixel_width * img.pixel_height then
      Err(Error("assert_image() failed, invalid size or data"))
    else
      Ok(())
  }

  /** Hence an image of positive width, zero height and no data passes the check. */
  lemma ZeroHeightPasses(img: Image)
    requires img.pixel_width > 0 && img.pixel_height == 0 && img.data == []
    ensures AssertValid(img).Ok?
  {
  }

  /** A decoded image of positive width whose RGBA buffer has four bytes per pixel is valid. */
  lemma FromDynamicImageValid(dynamicImage: DynamicImage)
    requires dynamicImage.width > 0 && |dynamicImage.rgba8| == 4 * dynamicImage.width * dynamicImage.height
    ensures AssertValid(FromDynamicImage(dynamicImage)).Ok?
  {
  }

  /** `try_from_encoded_bytes`: the decoded image, or the decoder's error. */
  function TryFromEncodedBytes(bytes: seq<byte>, format: ImageFormat, lib: ImageLib): (r: Result<Image>)
    ensures r.Ok? <==> lib.decode(bytes, format).Ok?
    ensures r.Ok? ==> r.value == FromDynamicImage(lib.decode(bytes, format).value)
  {
    var decoded :- lib.decode(bytes, format);
    Ok(FromDynamicImage(decoded))
  }

  /**
   * `convert_to_rgba8pre`: an invalid image is an error; an RGBA image is already converted; a BGRA image is
   * rebuilt from the converted buffer, or left as it was when the buffer cannot be built. The `&mut self`
   * update is modelled as returning the new image beside the result.
   */
  method ConvertToRgba8pre(self: Image, lib: ImageLib) returns (r: Image, res: Result<()>)
    ensures AssertValid(self).Err? ==> res.Err? && r == self
    ensures AssertValid(self).Ok? && self.memory_format == R8g8b8a8Premultiplied ==> res.Ok? && r == self
    ensures AssertValid(self).Ok? && self.memory_format == B8g8r8a8Premultiplied ==>
              (res.Ok? <==> lib.fromVec(self.pixel_width, self.pixel_height, self.data).Some?)
    ensures res.Err? ==> r == self
    ensures res.Ok? ==> r.memory_format == R8g8b8a8Premultiplied && r.pixel_width == self.pixel_width
                        && r.pixel_height == self.pixel_height && r.rect == self.rect
    ensures res.Ok? && self.memory_format == B8g8r8a8Premultiplied ==>
              r.data == lib.bgraToRgba(lib.fromVec(self.pixel_width, self.pixel_height, self.data).value).data
  {
    r := self;
    var valid := AssertValid(self);
    if valid.Err? {
      res := Err(valid.error);
      return;
    }
    match self.memory_format {
      case R8g8b8a8Premultiplied =>
        res := Ok(());
        return;
      case B8g8r8a8Premultiplied =>
        var imgbufBgra8 := lib.fromVec(self.pixel_width, self.pixel_height, self.data);
        if imgbufBgra8.None? {
          res := Err(Error("RgbaImage::from_vec() failed in Image to_imgbuf()"));
          return;
        }
        var dynamicImage := lib.bgraToRgba(imgbufBgra8.value);
        r := Image(dynamicImage.data, self.rect, self.pixel_width, self.pixel_height, R8g8b8a8Premultiplied);
    }
    res := Ok(());
  }

  /**
   * `to_imgbuf`: after the validity check, the RGBA buffer built from the data, or for BGRA data the buffer
   * converted to RGBA.
   */
  function ToImgbuf(self: Image, lib: ImageLib): (r: Result<ImageBuffer>)
    ensures AssertValid(self).Err? ==> r.Err?
    ensures AssertValid(self).Ok? ==>
              (r.Ok? <==> lib.fromVec(self.pixel_width, self.pixel_height, self.data).Some?)
    ensures r.Ok? && self.memory_format == R8g8b8a8Premultiplied ==>
              r.value == lib.fromVec(self.pixel_width, self.pixel_height, self.data).value
    ensures r.Ok? && self.memory_format == B8g8r8a8Premultiplied ==>
              r.value == lib.bgraToRgba(lib.fromVec(self.pixel_width, self.pixel_height, self.data).value)
  {
    var _ :- AssertValid(self);
    match self.memory_format
    case R8g8b8a8Premultiplied =>
      (match lib.fromVec(self.pixel_width, self.pixel_height, self.data)
       case Some(buf) => Ok(buf)
       case None => Err(Error("RgbaImage::from_vec() failed in Image to_imgbuf()")))
    case B8g8r8a8Premultiplied =>
      (match lib.fromVec(self.pixel_width, self.pixel_height, self.data)
       case Some(imgbufBgra8) => Ok(lib.bgraToRgba(imgbufBgra8))
       case None => Err(Error("RgbaImage::from_vec() failed in Image to_imgbuf()")))
  }

  /** `into_encoded_bytes`: the validity check, then `to_imgbuf`, then the encoder. */
  function IntoEncodedBytes(self: Image, format: ImageOutputFormat, lib: ImageLib): (r: Result<seq<byte>>)
    ensures AssertValid(self).Err? ==> r.Err?
    ensures r.Ok? <==> ToImgbuf(self, lib).Ok? && lib.writeTo(ToImgbuf(self, lib).value, format).Ok?
    ensures r.Ok? ==> r == lib.writeTo(ToImgbuf(self, lib).value, format)
  {
    var _ :- AssertValid(self);
    var imgbuf :- ToImgbuf(self, lib);
    var bytesBuf :- lib.writeTo(imgbuf, format);
    Ok(bytesBuf)
  }

  // Conversion from v0.4

  /** The decoder `TryFrom<v0.4 BitmapImage>` picks: PNG for PNG, JPEG for JPEG. */
  function DecoderFormat(format: StrokesV04.BitmapImageFormat): (f: ImageFormat)
    ensures format == StrokesV04.Png <==> f == PngFormat
  {
    match format
    case Jpeg => JpegFormat
    case Png => PngFormat
  }

  /**
   * `TryFrom<v0.4 BitmapImage>`: the base64 text is decoded, the bytes are decoded as an image of the stored
   * format, and the rectangle is converted; either decoder failing fails the conversion.
   */
  function TryFromV04(bi: StrokesV04.BitmapImage, lib: ImageLib): (r: Result<BitmapImage>)
    ensures r.Ok? <==> lib.base64Decode(bi.data_base64).Ok?
                       && lib.decode(lib.base64Decode(bi.data_base64).value, DecoderFormat(bi.format)).Ok?
    ensures r.Ok? ==> r.value.rectangle == ShapesV05.FromV04Rectangle(bi.rectangle)
    ensures r.Ok? ==> r.value.image
                      == FromDynamicImage(lib.decode(lib.base64Decode(bi.data_base64).value, DecoderFormat(bi.format)).value)
  {
    var bytes :- lib.base64Decode(bi.data_base64);
    var image :- TryFromEncodedBytes(bytes, DecoderFormat(bi.format), lib);
    Ok(BitmapImage(image, ShapesV05.FromV04Rectangle(bi.rectangle)))
  }

  /** The intrinsic size and bounds of the v0.4 image play no part: only the data, format and rectangle do. */
  lemma TryFromV04IgnoresSizeAndBounds(bi: StrokesV04.BitmapImage, size: Vec2, bounds: AABB, lib: ImageLib)
    ensures TryFromV04(bi.(intrinsic_size := size, bounds := bounds), lib) == TryFromV04(bi, lib)
  {
  }
}
