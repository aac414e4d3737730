/** The processing studio: the component's state (the loaded and processed images,
    the selected mode, the zoom and each mode's settings) and the handlers that
    change it. Each handler is a method of the Studio class; what it leaves behind
    is stated on a StudioState value, so that its effect reads as one update of
    the previous state. */
module Studio {
  import opened Bytes
  import opened Raster
  import Hex
  import Background
  import Cartoon
  import Enhance
  import Sharpen

  /** The six processing modes of the mode list. */
  datatype Mode = CartoonifyMode | BackgroundMode | PassportMode | MemeMode | EnhanceMode | RestoreMode

  datatype CartoonSettings = CartoonSettings(posterizeLevels: int, edgeStrength: int)

  datatype BackgroundSettings = BackgroundSettings(tolerance: int, keyColor: string, replacementColor: string,
                                                   useColorPicker: bool)

  datatype EnhanceSettings = EnhanceSettings(brightness: int, contrast: int, saturation: int, sharpness: int)

  datatype ExportSettings = ExportSettings(format: string, quality: int)

  /** The signed-in user as the download gate reads it. */
  datatype User = User(isAdmin: bool, creditsRemaining: int)

  /** Everything the studio's handlers read or write. */
  datatype StudioState = StudioState(original: Option<Image>, processed: Option<Image>, mode: Mode, zoom: int,
                                     cartoonSettings: CartoonSettings, backgroundSettings: BackgroundSettings,
                                     enhanceSettings: EnhanceSettings, exportSettings: ExportSettings)

  /** The zoom levels: 25 to 200 percent in steps of 25. */
  predicate ZoomLevel(z: int)
  {
    25 <= z <= 200 && z % 25 == 0
  }

  /** The settings the range sliders can produce: posterize levels 3..12, edge
      strength 0..100, tolerance 1..100, brightness, contrast and saturation
      -100..100, sharpness 0..100 and export quality 10..100. */
  predicate ValidSettings(st: StudioState)
  {
    3 <= st.cartoonSettings.posterizeLevels <= 12 && 0 <= st.cartoonSettings.edgeStrength <= 100 &&
    1 <= st.backgroundSettings.tolerance <= 100 &&
    -100 <= st.enhanceSettings.brightness <= 100 && -100 <= st.enhanceSettings.contrast <= 100 &&
    -100 <= st.enhanceSettings.saturation <= 100 && 0 <= st.enhanceSettings.sharpness <= 100 &&
    10 <= st.exportSettings.quality <= 100
  }

  /** A consistent studio: the zoom is on the grid, the settings are in their
      slider ranges and both images are whole ImageData values. */
  predicate ValidState(st: StudioState)
  {
    ZoomLevel(st.zoom) && ValidSettings(st) &&
    (st.original.Some? ==> st.original.value.Valid()) &&
    (st.processed.Some? ==> st.processed.value.Valid())
  }

  /** The state the component starts in. */
  const Initial := StudioState(None, None, CartoonifyMode, 100,
                               CartoonSettings(8, 50),
                               BackgroundSettings(30, "#00ff00", "#ffffff", false),
                               EnhanceSettings(0, 0, 0, 0),
                               ExportSettings("png", 90))

  /** The zoom-out button: Math.max(25, zoom - 25). */
  function ZoomOutStep(zoom: int): (z: int)
    ensures 25 <= z && (z == zoom - 25 || z == 25)
    ensures ZoomLevel(zoom) ==> ZoomLevel(z)
    ensures zoom - 25 >= 25 ==> z == zoom - 25
  {
    if 25 >= zoom - 25 then 25 else zoom - 25
  }

  /** The zoom-in button: Math.min(200, zoom + 25). */
  function ZoomInStep(zoom: int): (z: int)
    ensures z <= 200 && (z == zoom + 25 || z == 200)
    ensures ZoomLevel(zoom) ==> ZoomLevel(z)
    ensures zoom + 25 <= 200 ==> z == zoom + 25
  {
    if 200 <= zoom + 25 then 200 else zoom + 25
  }

  datatype ZoomButton = ZoomIn | ZoomOut

  /** The zoom after pressing the buttons in order, starting from zoom. */
  function ZoomAfter(zoom: int, presses: seq<ZoomButton>): int
    decreases |presses|
  {
    if |presses| == 0 then zoom
    else
      var next := if presses[0] == ZoomIn then ZoomInStep(zoom) else ZoomOutStep(zoom);
      ZoomAfter(next, presses[1..])
  }

  /** Whatever the buttons pressed, a zoom on the grid stays on the grid. */
  lemma {:induction false} ZoomAfterOnGrid(zoom: int, presses: seq<ZoomButton>)
    requires ZoomLevel(zoom)
    ensures ZoomLevel(ZoomAfter(zoom, presses))
    decreases |presses|
  {
    if |presses| > 0 {
      var next := if presses[0] == ZoomIn then ZoomInStep(zoom) else ZoomOutStep(zoom);
      ZoomAfterOnGrid(next, presses[1..]);
    }
  }

  /** Every zoom reachable from the initial 100 percent lies in [25, 200] and is a
      multiple of 25. */
  lemma ZoomFromStart(presses: seq<ZoomButton>)
    ensures var z := ZoomAfter(Initial.zoom, presses); 25 <= z <= 200 && z % 25 == 0
  {
    ZoomAfterOnGrid(Initial.zoom, presses);
  }

  /** One press of zoom-out undoes a zoom-in that did not hit the maximum, and the
      other way round. */
  lemma ZoomInverse(zoom: int)
    requires ZoomLevel(zoom)
    ensures zoom < 200 ==> ZoomOutStep(ZoomInStep(zoom)) == zoom
    ensures zoom > 25 ==> ZoomInStep(ZoomOutStep(zoom)) == zoom
  {}

  /** k presses of the same button from zoom. */
  function Presses(button: ZoomButton, k: nat): (ps: seq<ZoomButton>)
    ensures |ps| == k && forall i :: 0 <= i < k ==> ps[i] == button
  {
    seq(k, _ => button)
  }

  lemma {:induction false} ZoomInRepeated(zoom: int, k: nat)
    requires zoom + 25 * k <= 200
    ensures ZoomAfter(zoom, Presses(ZoomIn, k)) == zoom + 25 * k
    decreases k
  {
    if k > 0 {
      assert Presses(ZoomIn, k)[1..] == Presses(ZoomIn, k - 1);
      ZoomInRepeated(zoom + 25, k - 1);
    }
  }

  lemma {:induction false} ZoomOutRepeated(zoom: int, k: nat)
    requires zoom - 25 * k >= 25
    ensures ZoomAfter(zoom, Presses(ZoomOut, k)) == zoom - 25 * k
    decreases k
  {
    if k > 0 {
      assert Presses(ZoomOut, k)[1..] == Presses(ZoomOut, k - 1);
      ZoomOutRepeated(zoom - 25, k - 1);
    }
  }

  /** Conversely, every level of the grid can be reached from 100 percent. */
  lemma ZoomReachable(zoom: int) returns (presses: seq<ZoomButton>)
    requires ZoomLevel(zoom)
    ensures ZoomAfter(Initial.zoom, presses) == zoom
  {
    if zoom >= 100 {
      var k := (zoom - 100) / 25;
      assert zoom == 100 + 25 * k;
      ZoomInRepeated(100, k);
      presses := Presses(ZoomIn, k);
    } else {
      var k := (100 - zoom) / 25;
      assert zoom == 100 - 25 * k;
      ZoomOutRepeated(100, k);
      presses := Presses(ZoomOut, k);
    }
  }

  /** The tolerance removeBackground receives: the slider's percent as a fraction.
      Every slider value 1..100 gives a tolerance in (0, 1]. */
  function ToleranceFraction(tolerance: int): (t: real)
    ensures t * 100.0 == tolerance as real
    ensures 1 <= tolerance <= 100 ==> 0.0 < t <= 1.0
  {
    tolerance as real / 100.0
  }

  /** The one engine operation processImage runs, with the arguments it converts
      from the settings. */
  datatype EngineCall =
    | CartoonifyCall(colorLevels: int, edgeStrength: int)
    | RemoveBackgroundCall(key: Color, tolerance: real, replacement: Color)
    | CropToPassportCall
    | EnhanceCall(brightness: int, contrast: int, saturation: int, sharpness: int)
    | RestoreCall
    | AddTextCall
    | NoCall

  /** The switch on the current mode. The meme mode draws on the display canvas,
      and without a canvas with a 2D context it returns the original instead. */
  function EngineCallFor(st: StudioState, canvasReady: bool): (call: EngineCall)
    ensures call.CartoonifyCall? <==> st.mode == CartoonifyMode
    ensures call.RemoveBackgroundCall? <==> st.mode == BackgroundMode
    ensures call.CropToPassportCall? <==> st.mode == PassportMode
    ensures call.EnhanceCall? <==> st.mode == EnhanceMode
    ensures call.RestoreCall? <==> st.mode == RestoreMode
    ensures call.AddTextCall? <==> st.mode == MemeMode && canvasReady
    ensures call.NoCall? <==> st.mode == MemeMode && !canvasReady
  {
    match st.mode
    case CartoonifyMode =>
      CartoonifyCall(st.cartoonSettings.posterizeLevels, st.cartoonSettings.edgeStrength)
    case BackgroundMode =>
      var b := st.backgroundSettings;
      RemoveBackgroundCall(Hex.HexToRgb(b.keyColor), ToleranceFraction(b.tolerance), Hex.HexToRgb(b.replacementColor))
    case PassportMode => CropToPassportCall
    case EnhanceMode =>
      var e := st.enhanceSettings;
      EnhanceCall(e.brightness, e.contrast, e.saturation, e.sharpness)
    case RestoreMode => RestoreCall
    case MemeMode => if canvasReady then AddTextCall else NoCall
  }

  /** The arguments an engine call needs to be defined. */
  predicate Runnable(call: EngineCall)
  {
    (call.CartoonifyCall? ==> call.colorLevels >= 2) && (call.EnhanceCall? ==> call.contrast != 259)
  }

  /** In a consistent state every call the switch makes can run. */
  lemma ConsistentCallsRun(st: StudioState, canvasReady: bool)
    requires ValidState(st)
    ensures Runnable(EngineCallFor(st, canvasReady))
  {}

  /** The background call gets both colours through hexToRgb and a tolerance in (0, 1]. */
  lemma BackgroundCallArguments(st: StudioState, canvasReady: bool)
    requires ValidState(st) && st.mode == BackgroundMode
    ensures var call := EngineCallFor(st, canvasReady);
            call.key == Hex.HexToRgb(st.backgroundSettings.keyColor) &&
            call.replacement == Hex.HexToRgb(st.backgroundSettings.replacementColor) &&
            0.0 < call.tolerance <= 1.0
  {}

  /** The image the engine call makes from the original. cropped stands for what
      cropToPassport draws and rendered for the canvas read back after addText:
      both are canvas operations outside this model. */
  function Run(call: EngineCall, img: Image, spaceWeight: int -> real, colorWeight: int -> real,
               cropped: Image, rendered: Image): (out: Image)
    requires img.Valid() && Runnable(call)
    ensures !call.CropToPassportCall? && !call.AddTextCall? ==>
              out.Valid() && out.width == img.width && out.height == img.height
    ensures call.CropToPassportCall? ==> out == cropped
    ensures call.AddTextCall? ==> out == rendered
    ensures call.NoCall? ==> out == img
  {
    match call
    case CartoonifyCall(levels, edge) => Cartoon.Cartoonified(img, levels, edge, spaceWeight, colorWeight)
    case RemoveBackgroundCall(key, tolerance, replacement) =>
      Background.BackgroundRemoved(img, key, tolerance, replacement)
    case CropToPassportCall => cropped
    case EnhanceCall(b, c, s, sharp) => Enhance.Enhanced(img, b, c, s, sharp)
    case RestoreCall => Sharpen.Restored(img)
    case AddTextCall => rendered
    case NoCall => img
  }

  /** The enhance mode with its initial all-zero settings shows the original. */
  lemma NeutralEnhanceShowsOriginal(st: StudioState, img: Image, spaceWeight: int -> real, colorWeight: int -> real,
                                    cropped: Image, rendered: Image)
    requires img.Valid() && st.mode == EnhanceMode && st.enhanceSettings == Initial.enhanceSettings
    ensures Run(EngineCallFor(st, true), img, spaceWeight, colorWeight, cropped, rendered) == img
  {
    Enhance.EnhanceNeutral(img);
  }

  /** getColorAtPoint as the picker calls it: the three bytes at offset
      (y * width + x) * 4, with no bounds check. A read past either end of the
      buffer yields undefined, and formatting it throws, so that case is None. */
  function PickColor(img: Image, x: int, y: int): (picked: Option<Color>)
    ensures img.Valid() && 0 <= x < img.width && 0 <= y < img.height ==> picked == Some(ColorAtPoint(img, x, y))
  {
    var index := (y * img.width + x) * 4;
    assert img.Valid() && 0 <= x < img.width && 0 <= y < img.height ==> index + 2 < |img.data| by {
      if img.Valid() && 0 <= x < img.width && 0 <= y < img.height {
        IdxInRange(img.width, img.height, x, y, 2);
      }
    }
    if 0 <= index && index + 2 < |img.data| then Some(Color(img.data[index], img.data[index + 1], img.data[index + 2]))
    else None
  }

  /** A click inside the image picks the colour of the pixel under it. */
  lemma PickColorInside(img: Image, x: int, y: int)
    requires img.Valid() && 0 <= x < img.width && 0 <= y < img.height
    ensures PickColor(img, x, y) == Some(ColorAtPoint(img, x, y))
  {
    IdxInRange(img.width, img.height, x, y, 2);
  }

  /** The picker's key, once processed in background mode, replaces the picked
      pixel with the replacement colour, whatever the tolerance. */
  lemma PickedKeyIsRemoved(img: Image, x: int, y: int, st: StudioState, spaceWeight: int -> real,
                           colorWeight: int -> real, cropped: Image, rendered: Image)
    requires img.Valid() && 0 <= x < img.width && 0 <= y < img.height
    requires st.mode == BackgroundMode && st.backgroundSettings.keyColor == Hex.FormatHex(ColorAtPoint(img, x, y))
    ensures var out := Run(EngineCallFor(st, true), img, spaceWeight, colorWeight, cropped, rendered);
            out.Valid() && out.width == img.width && out.height == img.height &&
            ColorAtPoint(out, x, y) == Hex.HexToRgb(st.backgroundSettings.replacementColor)
  {
    var b := st.backgroundSettings;
    Hex.PickThenRemove(img, x, y, ToleranceFraction(b.tolerance), Hex.HexToRgb(b.replacementColor));
  }

  /** The MIME type handed to toBlob for an export format. */
  function MimeType(format: string): (mime: string)
    ensures mime == "image/jpeg" <==> format == "jpg"
    ensures mime == "image/webp" <==> format == "webp"
    ensures mime == "image/png" <==> format != "jpg" && format != "webp"
  {
    if format == "jpg" then "image/jpeg"
    else if format == "webp" then "image/webp"
    else "image/png"
  }

  /** The quality handed to toBlob: the slider's percent as a fraction, in
      [0.1, 1] for every slider value 10..100. */
  function ExportQuality(quality: int): (q: real)
    ensures q * 100.0 == quality as real
    ensures 10 <= quality <= 100 ==> 0.1 <= q <= 1.0
  {
    quality as real / 100.0
  }

  /** The credit check before an export: a user who is not an admin and holds
      fewer than 4 credits is refused. No user at all passes the check, since
      `undefined < 4` is false. */
  predicate DownloadRefused(user: Option<User>)
    ensures user.None? ==> !DownloadRefused(user)
    ensures user.Some? && user.value.isAdmin ==> !DownloadRefused(user)
    ensures user.Some? && user.value.creditsRemaining >= 4 ==> !DownloadRefused(user)
  {
    user.Some? && !user.value.isAdmin && user.value.creditsRemaining < 4
  }

  /** What handleDownload hands to the canvas export. */
  datatype ExportRequest = ExportRequest(mimeType: string, quality: real)

  class Studio {
    var original: Option<Image>
    var processed: Option<Image>
    var mode: Mode
    var zoom: int
    var cartoonSettings: CartoonSettings
    var backgroundSettings: BackgroundSettings
    var enhanceSettings: EnhanceSettings
    var exportSettings: ExportSettings

    ghost function State(): StudioState
      reads this
    {
      StudioState(original, processed, mode, zoom, cartoonSettings, backgroundSettings, enhanceSettings, exportSettings)
    }

    ghost predicate Valid()
      reads this
    {
      ValidState(State())
    }

    /** The initial state of every useState hook. */
    constructor()
      ensures State() == Initial && Valid()
    {
      original := None;
      processed := None;
      mode := CartoonifyMode;
      zoom := 100;
      cartoonSettings := CartoonSettings(8, 50);
      backgroundSettings := BackgroundSettings(30, "#00ff00", "#ffffff", false);
      enhanceSettings := EnhanceSettings(0, 0, 0, 0);
      exportSettings := ExportSettings("png", 90);
    }

    /** loadImageData: the decoded image becomes both the original and the
        processed image. */
    method LoadImage(img: Image)
      requires Valid() && img.Valid()
      modifies this
      ensures Valid() && State() == old(State()).(original := Some(img), processed := Some(img))
    {
      original := Some(img);
      processed := Some(img);
    }

    /** A mode button. */
    method SetMode(m: Mode)
      requires Valid()
      modifies this
      ensures Valid() && State() == old(State()).(mode := m)
    {
      mode := m;
    }

    /** The zoom-out button. */
    method ZoomOut()
      requires Valid()
      modifies this
      ensures Valid() && State() == old(State()).(zoom := ZoomOutStep(old(zoom)))
    {
      zoom := ZoomOutStep(zoom);
    }

    /** The zoom-in button. */
    method ZoomIn()
      requires Valid()
      modifies this
      ensures Valid() && State() == old(State()).(zoom := ZoomInStep(old(zoom)))
    {
      zoom := ZoomInStep(zoom);
    }

    /** The posterize slider (3..12). */
    method SetPosterizeLevels(v: int)
      requires Valid() && 3 <= v <= 12
      modifies this
      ensures Valid() && State() == old(State()).(cartoonSettings := old(cartoonSettings).(posterizeLevels := v))
    {
      cartoonSettings := cartoonSettings.(posterizeLevels := v);
    }

    /** The edge strength slider (0..100). */
    method SetEdgeStrength(v: int)
      requires Valid() && 0 <= v <= 100
      modifies this
      ensures Valid() && State() == old(State()).(cartoonSettings := old(cartoonSettings).(edgeStrength := v))
    {
      cartoonSettings := cartoonSettings.(edgeStrength := v);
    }

    /** The key colour input. */
    method SetKeyColor(hex: string)
      requires Valid()
      modifies this
      ensures Valid() && State() == old(State()).(backgroundSettings := old(backgroundSettings).(keyColor := hex))
    {
      backgroundSettings := backgroundSettings.(keyColor := hex);
    }

    /** The picker button flips the colour picker on and off. */
    method TogglePicker()
      requires Valid()
      modifies this
      ensures Valid()
      ensures State() == old(State()).(backgroundSettings :=
                old(backgroundSettings).(useColorPicker := !old(backgroundSettings).useColorPicker))
    {
      backgroundSettings := backgroundSettings.(useColorPicker := !backgroundSettings.useColorPicker);
    }

    /** The tolerance slider (1..100). */
    method SetTolerance(v: int)
      requires Valid() && 1 <= v <= 100
      modifies this
      ensures Valid() && State() == old(State()).(backgroundSettings := old(backgroundSettings).(tolerance := v))
    {
      backgroundSettings := backgroundSettings.(tolerance := v);
    }

    /** A replacement preset button or the replacement colour input. */
    method SetReplacementColor(hex: string)
      requires Valid()
      modifies this
      ensures Valid()
      ensures State() == old(State()).(backgroundSettings := old(backgroundSettings).(replacementColor := hex))
    {
      backgroundSettings := backgroundSettings.(replacementColor := hex);
    }

    /** The brightness slider (-100..100). */
    method SetBrightness(v: int)
      requires Valid() && -100 <= v <= 100
      modifies this
      ensures Valid() && State() == old(State()).(enhanceSettings := old(enhanceSettings).(brightness := v))
    {
      enhanceSettings := enhanceSettings.(brightness := v);
    }

    /** The contrast slider (-100..100). */
    method SetContrast(v: int)
      requires Valid() && -100 <= v <= 100
      modifies this
      ensures Valid() && State() == old(State()).(enhanceSettings := old(enhanceSettings).(contrast := v))
    {
      enhanceSettings := enhanceSettings.(contrast := v);
    }

    /** The saturation slider (-100..100). */
    method SetSaturation(v: int)
      requires Valid() && -100 <= v <= 100
      modifies this
      ensures Valid() && State() == old(State()).(enhanceSettings := old(enhanceSettings).(saturation := v))
    {
      enhanceSettings := enhanceSettings.(saturation := v);
    }

    /** The sharpness slider (0..100). */
    method SetSharpness(v: int)
      requires Valid() && 0 <= v <= 100
      modifies this
      ensures Valid() && State() == old(State()).(enhanceSettings := old(enhanceSettings).(sharpness := v))
    {
      enhanceSettings := enhanceSettings.(sharpness := v);
    }

    /** The format select. */
    method SetFormat(format: string)
      requires Valid()
      modifies this
      ensures Valid() && State() == old(State()).(exportSettings := old(exportSettings).(format := format))
    {
      exportSettings := exportSettings.(format := format);
    }

    /** The export quality slider (10..100). */
    method SetQuality(v: int)
      requires Valid() && 10 <= v <= 100
      modifies this
      ensures Valid() && State() == old(State()).(exportSettings := old(exportSettings).(quality := v))
    {
      exportSettings := exportSettings.(quality := v);
    }

    /** processImage: without an original image nothing happens; otherwise the
        current mode's single engine call runs on the original and its result
        becomes the processed image. rendered is None when there is no display
        canvas or it has no 2D context. */
    method ProcessImage(spaceWeight: int -> real, colorWeight: int -> real, cropped: Image, rendered: Option<Image>)
      requires Valid() && cropped.Valid() && (rendered.Some? ==> rendered.value.Valid())
      modifies this
      ensures Valid()
      ensures old(original).None? ==> State() == old(State())
      ensures old(original).Some? ==>
                var call := EngineCallFor(old(State()), rendered.Some?);
                var canvas := if rendered.Some? then rendered.value else old(original).value;
                State() == old(State()).(processed :=
                  Some(Run(call, old(original).value, spaceWeight, colorWeight, cropped, canvas)))
    {
      if original.None? {
        return;
      }
      var img := original.value;
      ConsistentCallsRun(State(), rendered.Some?);
      var out: Image;
      match mode {
        case CartoonifyMode =>
          out := Cartoon.Cartoonify(img, cartoonSettings.posterizeLevels, cartoonSettings.edgeStrength,
                                    spaceWeight, colorWeight);
        case BackgroundMode =>
          var key := Hex.HexToRgb(backgroundSettings.keyColor);
          var replacement := Hex.HexToRgb(backgroundSettings.replacementColor);
          out := Background.RemoveBackground(img, key, ToleranceFraction(backgroundSettings.tolerance), replacement);
        case PassportMode =>
          out := cropped;
        case EnhanceMode =>
          out := Enhance.EnhanceImage(img, enhanceSettings.brightness, enhanceSettings.contrast,
                                      enhanceSettings.saturation, enhanceSettings.sharpness);
        case RestoreMode =>
          out := Sharpen.Restore(img);
        case MemeMode =>
          out := if rendered.Some? then rendered.value else img;
      }
      processed := Some(out);
    }

    /** handleDownload: nothing without a display canvas; a refused user gets no
        export; otherwise the canvas is exported with the format's MIME type and
        the quality as a fraction. */
    method HandleDownload(user: Option<User>, canvasPresent: bool) returns (request: Option<ExportRequest>)
      requires Valid()
      ensures request.Some? <==> canvasPresent && !DownloadRefused(user)
      ensures user.Some? && user.value.isAdmin && canvasPresent ==> request.Some?
      ensures request.Some? ==>
                request.value.mimeType == MimeType(exportSettings.format) &&
                request.value.quality * 100.0 == exportSettings.quality as real &&
                0.1 <= request.value.quality <= 1.0
    {
      if !canvasPresent {
        return None;
      }
      if DownloadRefused(user) {
        return None;
      }
      request := Some(ExportRequest(MimeType(exportSettings.format), ExportQuality(exportSettings.quality)));
    }

    /** handleReset: with an original image and a display canvas with a 2D
        context, the processed image becomes the original again. */
    method HandleReset(canvasReady: bool)
      requires Valid()
      modifies this
      ensures Valid()
      ensures old(original).Some? && canvasReady ==> State() == old(State()).(processed := old(original))
      ensures old(original).None? || !canvasReady ==> State() == old(State())
    {
      if original.Some? && canvasReady {
        processed := original;
      }
    }

    /** handleCanvasClick at canvas pixel (x, y): only in background mode with the
        picker on and an original image does it pick; the picked colour, written
        as lower-case hex, becomes the key colour and the picker turns off. A
        click whose offset falls outside the buffer throws before any update. */
    method HandleCanvasClick(x: int, y: int)
      requires Valid()
      modifies this
      ensures Valid()
      ensures var picking := old(mode) == BackgroundMode && old(backgroundSettings).useColorPicker && old(original).Some?;
              if picking && PickColor(old(original).value, x, y).Some? then
                State() == old(State()).(backgroundSettings := old(backgroundSettings).(
                  keyColor := Hex.FormatHex(PickColor(old(original).value, x, y).value), useColorPicker := false))
              else
                State() == old(State())
    {
      if mode == BackgroundMode && backgroundSettings.useColorPicker && original.Some? {
        var picked := PickColor(original.value, x, y);
        if picked.Some? {
          backgroundSettings := backgroundSettings.(keyColor := Hex.FormatHex(picked.value), useColorPicker := false);
        }
      }
    }
  }
}
