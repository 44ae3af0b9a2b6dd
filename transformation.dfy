/**
 * `Transformation`: the images it allocates for the SDK's transform calls.
 * Each output image is created with a format, a size and a stride of
 * width × bytes-per-pixel; the pixels the native call writes into it are
 * not modelled.
 */
module Transformation {
  import opened Wrappers
  import opened Image

  /** `_STRIDE_BYTES_PER_PIXEL`; the other formats are not in the table. */
  function StrideBytesPerPixel(f: PixelFormat): (r: Option<nat>)
    ensures r.Some? <==> f in {ColorBGRA32, Depth16, IR16, Custom, Custom8, Custom16}
    ensures r.Some? ==> r.value > 0
  {
    match f
    case ColorBGRA32 => Some(4)
    case Depth16 => Some(2)
    case IR16 => Some(2)
    case Custom => Some(6)
    case Custom8 => Some(1)
    case Custom16 => Some(2)
    case _ => None
  }

  /** What `k4a_image_create` is asked for. */
  datatype ImageSpec = ImageSpec(format: PixelFormat, width: nat, height: nat, stride: nat)

  datatype TransformError =
    | KeyError                     // the format has no bytes-per-pixel entry
    | AzureKinectSensorException   // `k4a_image_create` did not succeed

  datatype Resolution = Resolution(width: nat, height: nat)

  /** The two resolutions `__init__` reads from the calibration. */
  datatype Transformation = Transformation(colorResolution: Resolution, depthResolution: Resolution)

  /**
   * `_create_image_handle`: the stride is width × bytes-per-pixel; an
   * unlisted format fails at the lookup, before `creates` (the native
   * create, true on success) is consulted.
   */
  function CreateImageHandle(f: PixelFormat, width: nat, height: nat, creates: ImageSpec -> bool)
    : (r: Result<ImageSpec, TransformError>)
    ensures StrideBytesPerPixel(f).None? ==> r == Err(KeyError)
    ensures StrideBytesPerPixel(f).Some? ==>
      var spec := ImageSpec(f, width, height, width * StrideBytesPerPixel(f).value);
      r == if creates(spec) then Ok(spec) else Err(AzureKinectSensorException)
  {
    match StrideBytesPerPixel(f)
    case None => Err(KeyError)
    case Some(bpp) =>
      var spec := ImageSpec(f, width, height, width * bpp);
      if creates(spec) then Ok(spec) else Err(AzureKinectSensorException)
  }

  /** A created image's stride holds exactly `width` pixels of its format, so the row is never padded. */
  lemma CreatedStride(f: PixelFormat, width: nat, height: nat, creates: ImageSpec -> bool)
    requires CreateImageHandle(f, width, height, creates).Ok?
    ensures var spec := CreateImageHandle(f, width, height, creates).value;
      && spec.format == f && spec.width == width && spec.height == height
      && StrideBytesPerPixel(f).Some? && spec.stride == width * StrideBytesPerPixel(f).value
      && spec.stride / StrideBytesPerPixel(f).value == width
  {
  }

  /** `depth_image_to_color_camera`: the input's format at the colour resolution. */
  function DepthImageToColorCamera(t: Transformation, depth: ImageSpec, creates: ImageSpec -> bool)
    : (r: Result<ImageSpec, TransformError>)
    ensures r.Ok? ==> (r.value.format == depth.format
                       && r.value.width == t.colorResolution.width && r.value.height == t.colorResolution.height)
  {
    CreateImageHandle(depth.format, t.colorResolution.width, t.colorResolution.height, creates)
  }

  /**
   * `depth_image_to_color_camera_custom`: a DEPTH16 image and an image in
   * the custom input's format, both at the colour resolution; only the
   * second is returned, and it is not created when the first fails.
   */
  function DepthImageToColorCameraCustom(t: Transformation, depth: ImageSpec, custom: ImageSpec, creates: ImageSpec -> bool)
    : (r: Result<ImageSpec, TransformError>)
    ensures r.Ok? <==> (CreateImageHandle(Depth16, t.colorResolution.width, t.colorResolution.height, creates).Ok?
                        && CreateImageHandle(custom.format, t.colorResolution.width, t.colorResolution.height, creates).Ok?)
    ensures r.Ok? ==> (r.value.format == custom.format
                       && r.value.width == t.colorResolution.width && r.value.height == t.colorResolution.height)
  {
    match CreateImageHandle(Depth16, t.colorResolution.width, t.colorResolution.height, creates)
    case Err(e) => Err(e)
    case Ok(_) => CreateImageHandle(custom.format, t.colorResolution.width, t.colorResolution.height, creates)
  }

  /** `color_image_to_depth_camera`: BGRA32 at the depth resolution. */
  function ColorImageToDepthCamera(t: Transformation, depth: ImageSpec, color: ImageSpec, creates: ImageSpec -> bool)
    : (r: Result<ImageSpec, TransformError>)
    ensures r.Ok? ==> r.value == ImageSpec(ColorBGRA32, t.depthResolution.width, t.depthResolution.height,
                                           4 * t.depthResolution.width)
    ensures r.Err? ==> r.error == AzureKinectSensorException
  {
    CreateImageHandle(ColorBGRA32, t.depthResolution.width, t.depthResolution.height, creates)
  }

  /** `depth_image_to_point_cloud`: CUSTOM (three 16-bit coordinates) at the input's own size. */
  function DepthImageToPointCloud(t: Transformation, depth: ImageSpec, creates: ImageSpec -> bool)
    : (r: Result<ImageSpec, TransformError>)
    ensures r.Ok? ==> r.value == ImageSpec(Custom, depth.width, depth.height, 6 * depth.width)
    ensures r.Err? ==> r.error == AzureKinectSensorException
  {
    CreateImageHandle(Custom, depth.width, depth.height, creates)
  }

  /** `_get_custom_bytes_per_pixel`: 1 for CUSTOM8, 2 for every other format. */
  function CustomBytesPerPixel(custom: ImageSpec): (r: nat)
    ensures r == 1 <==> custom.format == Custom8
    ensures r == 1 || r == 2
  {
    if custom.format == Custom8 then 1 else 2
  }

  /** What the custom bytes-per-pixel says agrees with the stride table for both custom formats. */
  lemma CustomBytesAgree(custom: ImageSpec)
    requires custom.format in {Custom8, Custom16}
    ensures StrideBytesPerPixel(custom.format) == Some(CustomBytesPerPixel(custom))
  {
  }
}
