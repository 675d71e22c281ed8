/** The selection rules applied once while the engine is set up: which GPU,
    which queue family, which surface format and present mode, and which
    swapchain extent. Each is a pure choice over what the driver reports;
    where the engine would panic the choice fails with a `SetupError`. */
module Selection {
  import opened Wrappers
  import opened Vulkan

  datatype SetupError =
    | NoSuitableGpu
    | NoQueueFamily
    | NoSurfaceFormat
    | NoImmediatePresentMode
    | EmptyExtentRange

  /** The first index whose element satisfies `matches`. */
  function FirstMatch<T>(s: seq<T>, matches: T -> bool): (r: Option<nat>)
    ensures r.Some? ==> r.value < |s| && matches(s[r.value])
    ensures r.Some? ==> forall j :: 0 <= j < r.value ==> !matches(s[j])
    ensures r.None? <==> forall j :: 0 <= j < |s| ==> !matches(s[j])
  {
    if s == [] then None
    else if matches(s[0]) then Some(0)
    else match FirstMatch(s[1..], matches)
      case None => None
      case Some(k) => Some(k + 1)
  }

  // ---- physical device ----------------------------------------------------

  datatype PhysicalDeviceType = Other | IntegratedGpu | DiscreteGpu | VirtualGpu | Cpu

  predicate CanRender(t: PhysicalDeviceType)
  {
    t == DiscreteGpu || t == IntegratedGpu
  }

  /** The index, in enumeration order, of the first discrete or integrated GPU. */
  function SelectGpu(deviceTypes: seq<PhysicalDeviceType>): (r: Result<nat, SetupError>)
    ensures r.Success? ==> r.value < |deviceTypes| && CanRender(deviceTypes[r.value])
    ensures r.Success? ==> forall j :: 0 <= j < r.value ==> !CanRender(deviceTypes[j])
    ensures r.Failure? <==> forall j :: 0 <= j < |deviceTypes| ==> !CanRender(deviceTypes[j])
    ensures r.Failure? ==> r.error == NoSuitableGpu
  {
    match FirstMatch(deviceTypes, CanRender)
    case Some(i) => Success(i)
    case None => Failure(NoSuitableGpu)
  }

  // ---- queue family ----------------------------------------------------------

  predicate GraphicsAndTransfer(queueFlags: bv32)
  {
    Contains(queueFlags, QUEUE_GRAPHICS) && Contains(queueFlags, QUEUE_TRANSFER)
  }

  /** The index of the first queue family that supports both graphics and transfer. */
  function SelectQueueFamily(families: seq<bv32>): (r: Result<nat, SetupError>)
    ensures r.Success? ==> r.value < |families|
    ensures r.Success? ==> GraphicsAndTransfer(families[r.value])
    ensures r.Success? ==> forall j :: 0 <= j < r.value ==> !GraphicsAndTransfer(families[j])
    ensures r.Failure? <==> forall j :: 0 <= j < |families| ==> !GraphicsAndTransfer(families[j])
    ensures r.Failure? ==> r.error == NoQueueFamily
  {
    match FirstMatch(families, GraphicsAndTransfer)
    case Some(i) => Success(i)
    case None => Failure(NoQueueFamily)
  }

  // ---- surface format and present mode -------------------------------------

  const FORMAT_B8G8R8A8_SRGB: nat := 50
  const COLOR_SPACE_SRGB_NONLINEAR: nat := 0

  const PRESENT_MODE_IMMEDIATE: nat := 0
  const PRESENT_MODE_MAILBOX: nat := 1
  const PRESENT_MODE_FIFO: nat := 2
  const PRESENT_MODE_FIFO_RELAXED: nat := 3

  datatype SurfaceFormat = SurfaceFormat(format: nat, colorSpace: nat)

  predicate Preferred(f: SurfaceFormat)
  {
    f.format == FORMAT_B8G8R8A8_SRGB && f.colorSpace == COLOR_SPACE_SRGB_NONLINEAR
  }

  /** The first B8G8R8A8_SRGB / SRGB_NONLINEAR format, else the first format
      of all; an empty list fails (the engine indexes `formats[0]`). */
  function SelectSurfaceFormat(formats: seq<SurfaceFormat>): (r: Result<SurfaceFormat, SetupError>)
    ensures r.Failure? <==> formats == []
    ensures r.Failure? ==> r.error == NoSurfaceFormat
    ensures r.Success? ==> r.value in formats
    ensures (exists i :: 0 <= i < |formats| && Preferred(formats[i])) ==>
              r.Success? && Preferred(r.value) &&
              exists i :: 0 <= i < |formats| && formats[i] == r.value &&
                          forall j :: 0 <= j < i ==> !Preferred(formats[j])
    ensures formats != [] && (forall i :: 0 <= i < |formats| ==> !Preferred(formats[i])) ==>
              r == Success(formats[0])
  {
    match FirstMatch(formats, Preferred)
    case Some(i) => Success(formats[i])
    case None => if formats == [] then Failure(NoSurfaceFormat) else Success(formats[0])
  }

  /** IMMEDIATE if the surface offers it; setup fails otherwise. */
  function SelectPresentMode(modes: seq<nat>): (r: Result<nat, SetupError>)
    ensures r.Success? <==> PRESENT_MODE_IMMEDIATE in modes
    ensures r.Success? ==> r.value == PRESENT_MODE_IMMEDIATE
    ensures r.Failure? ==> r.error == NoImmediatePresentMode
  {
    match FirstMatch(modes, (m: nat) => m == PRESENT_MODE_IMMEDIATE)
    case Some(i) => Success(modes[i])
    case None => Failure(NoImmediatePresentMode)
  }

  // ---- extent ------------------------------------------------------------------

  const I32_MIN: int := -0x8000_0000
  const I32_LIMIT: int := 0x8000_0000

  /** Rust's `as u32` on an `i32`: the same 32 bits read as unsigned. */
  function AsU32(x: int): (r: nat)
    requires I32_MIN <= x < I32_LIMIT
    ensures r < U32_LIMIT
    ensures x >= 0 ==> r == x
    ensures x < 0 ==> r == x + U32_LIMIT
  {
    x % U32_LIMIT
  }

  /** `u32::clamp`, which panics when the bounds are out of order. */
  function Clamp(x: nat, lo: nat, hi: nat): (r: Result<nat, SetupError>)
    ensures r.Failure? <==> lo > hi
    ensures r.Success? ==> lo <= r.value <= hi
    ensures r.Success? && lo <= x <= hi ==> r.value == x
    ensures r.Success? && x < lo ==> r.value == lo
    ensures r.Success? && x > hi ==> r.value == hi
  {
    if lo > hi then Failure(EmptyExtentRange)
    else if x < lo then Success(lo)
    else if x > hi then Success(hi)
    else Success(x)
  }

  datatype SurfaceCapabilities = SurfaceCapabilities(
    minImageCount: nat,
    minImageExtent: Extent,
    maxImageExtent: Extent)

  /** The framebuffer size clamped, axis by axis, into the surface's range. */
  function ChooseExtent(framebufferSize: (int, int), caps: SurfaceCapabilities): (r: Result<Extent, SetupError>)
    requires I32_MIN <= framebufferSize.0 < I32_LIMIT && I32_MIN <= framebufferSize.1 < I32_LIMIT
    ensures r.Success? <==> caps.minImageExtent.width <= caps.maxImageExtent.width &&
                            caps.minImageExtent.height <= caps.maxImageExtent.height
    ensures r.Success? ==> caps.minImageExtent.width <= r.value.width <= caps.maxImageExtent.width
    ensures r.Success? ==> caps.minImageExtent.height <= r.value.height <= caps.maxImageExtent.height
    ensures r.Success? && caps.minImageExtent.width <= AsU32(framebufferSize.0) <= caps.maxImageExtent.width ==>
              r.value.width == AsU32(framebufferSize.0)
    ensures r.Success? && caps.minImageExtent.height <= AsU32(framebufferSize.1) <= caps.maxImageExtent.height ==>
              r.value.height == AsU32(framebufferSize.1)
    ensures r.Success? && AsU32(framebufferSize.0) < caps.minImageExtent.width ==>
              r.value.width == caps.minImageExtent.width
    ensures r.Success? && AsU32(framebufferSize.0) > caps.maxImageExtent.width ==>
              r.value.width == caps.maxImageExtent.width
    ensures r.Success? && AsU32(framebufferSize.1) < caps.minImageExtent.height ==>
              r.value.height == caps.minImageExtent.height
    ensures r.Success? && AsU32(framebufferSize.1) > caps.maxImageExtent.height ==>
              r.value.height == caps.maxImageExtent.height
  {
    var w := Clamp(AsU32(framebufferSize.0), caps.minImageExtent.width, caps.maxImageExtent.width);
    var h := Clamp(AsU32(framebufferSize.1), caps.minImageExtent.height, caps.maxImageExtent.height);
    if w.Failure? then Failure(w.error)
    else if h.Failure? then Failure(h.error)
    else Success(Extent(w.value, h.value))
  }

  datatype SwapchainSettings = SwapchainSettings(
    surfaceFormat: SurfaceFormat,
    presentMode: nat,
    extent: Extent,
    minImageCount: nat)

  /** The swapchain parameters, checked in the engine's order: format, then
      present mode, then extent. One image more than the surface minimum. */
  function ChooseSwapchain(formats: seq<SurfaceFormat>, modes: seq<nat>, caps: SurfaceCapabilities,
                           framebufferSize: (int, int)): (r: Result<SwapchainSettings, SetupError>)
    requires I32_MIN <= framebufferSize.0 < I32_LIMIT && I32_MIN <= framebufferSize.1 < I32_LIMIT
    ensures r.Success? <==> formats != [] && PRESENT_MODE_IMMEDIATE in modes &&
                            ChooseExtent(framebufferSize, caps).Success?
    ensures formats == [] ==> r == Failure(NoSurfaceFormat)
    ensures formats != [] && PRESENT_MODE_IMMEDIATE !in modes ==> r == Failure(NoImmediatePresentMode)
    ensures r.Success? ==>
              r.value == SwapchainSettings(SelectSurfaceFormat(formats).value, PRESENT_MODE_IMMEDIATE,
                                           ChooseExtent(framebufferSize, caps).value, caps.minImageCount + 1)
    ensures r.Success? ==> r.value.minImageCount == caps.minImageCount + 1
    ensures r.Success? ==> r.value.presentMode == PRESENT_MODE_IMMEDIATE && r.value.surfaceFormat in formats
    ensures r.Success? ==> caps.minImageExtent.width <= r.value.extent.width <= caps.maxImageExtent.width &&
                           caps.minImageExtent.height <= r.value.extent.height <= caps.maxImageExtent.height
  {
    match SelectSurfaceFormat(formats)
    case Failure(e) => Failure(e)
    case Success(format) =>
      match SelectPresentMode(modes)
      case Failure(e) => Failure(e)
      case Success(mode) =>
        match ChooseExtent(framebufferSize, caps)
        case Failure(e) => Failure(e)
        case Success(extent) => Success(SwapchainSettings(format, mode, extent, caps.minImageCount + 1))
  }
}
