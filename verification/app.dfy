/**
  The application's pure state transitions around the pipeline: the reset
  button, loading a new photo, taking an AI-generated picture into the
  stencil workspace, and the background transparency applied on download.
 */
module App {
  import opened Grid
  import opened Raster
  import opened Types
  import opened Hex
  import opened Tone
  import opened Sobel
  import opened Classify
  import opened Stencil
  import opened SettingsUpdate

  /** The two workspaces. */
  datatype Tab = StencilTab | PlaneArtTab

  /** The slice of application state these transitions touch. */
  datatype Workspace = Workspace(
    tab: Tab,
    settings: Settings,
    imageLoaded: bool,
    planeArtResult: Option<string>)

  /** The defaults, keeping the preferred mode and line colour of `prev`. */
  function ResetSettings(prev: Settings): (r: Settings)
    ensures r.mode == prev.mode && r.lineColor == prev.lineColor
    ensures forall k :: k != ModeKey && k != LineColorKey ==> Get(r, k) == Get(DefaultSettings, k)
  {
    DefaultSettings.(mode := prev.mode, lineColor := prev.lineColor)
  }

  /** Resetting twice is resetting once, and the result depends only on the kept mode and colour. */
  lemma ResetIdempotent(a: Settings, b: Settings)
    ensures ResetSettings(ResetSettings(a)) == ResetSettings(a)
    ensures a.mode == b.mode && a.lineColor == b.lineColor ==> ResetSettings(a) == ResetSettings(b)
  {
    Extensionality(ResetSettings(ResetSettings(a)), ResetSettings(a));
  }

  /**
    The reset button: on the stencil tab it resets the settings (keeping mode
    and line colour); on the plane-art tab it clears the generated result and
    leaves the settings alone.
   */
  function HandleReset(ws: Workspace): (r: Workspace)
    ensures r.tab == ws.tab && r.imageLoaded == ws.imageLoaded
    ensures ws.tab == StencilTab ==> r.settings == ResetSettings(ws.settings) && r.planeArtResult == ws.planeArtResult
    ensures ws.tab == PlaneArtTab ==> r.settings == ws.settings && r.planeArtResult == None
  {
    if ws.tab == StencilTab then ws.(settings := ResetSettings(ws.settings))
    else ws.(planeArtResult := None)
  }

  /** A new photo: marked loaded, settings reset as by the reset button, the previous plane-art result dropped. */
  function LoadNewImage(ws: Workspace): (r: Workspace)
    ensures r.imageLoaded && r.planeArtResult == None && r.tab == ws.tab
    ensures r.settings.mode == ws.settings.mode && r.settings.lineColor == ws.settings.lineColor
    ensures forall k :: k != ModeKey && k != LineColorKey ==> Get(r.settings, k) == Get(DefaultSettings, k)
  {
    ws.(imageLoaded := true, settings := ResetSettings(ws.settings), planeArtResult := None)
  }

  /** Loading a photo on the stencil tab leaves the same settings the reset button would. */
  lemma LoadAgreesWithReset(ws: Workspace)
    requires ws.tab == StencilTab
    ensures LoadNewImage(ws).settings == HandleReset(ws).settings
  {
  }

  /**
    The settings used for a picture produced by the AI tools: the defaults
    switched to threshold mode at detail 50 with no smoothing, keeping only
    the line colour.
   */
  function AiResultSettings(prev: Settings): (r: Settings)
    ensures r.mode == Threshold && r.detail == 50.0 && r.smoothing == 0.0
    ensures r.lineColor == prev.lineColor
    ensures forall k :: k !in {ModeKey, DetailKey, SmoothingKey, LineColorKey} ==> Get(r, k) == Get(DefaultSettings, k)
  {
    DefaultSettings.(mode := Threshold, detail := 50.0, smoothing := 0.0, lineColor := prev.lineColor)
  }

  /** Whether an optional picture URL is present in the JavaScript sense: set and not the empty string. */
  predicate HasResult(result: Option<string>) {
    result.Some? && result.value != ""
  }

  /**
    Sending the plane-art result to the stencil tab. Without a result nothing
    happens; with one the tab switches, the photo counts as loaded and the
    AI-result settings apply.
   */
  function PlaneArtToStencil(ws: Workspace): (r: Workspace)
    ensures !HasResult(ws.planeArtResult) ==> r == ws
    ensures HasResult(ws.planeArtResult) ==>
      && r.tab == StencilTab && r.imageLoaded
      && r.settings == AiResultSettings(ws.settings)
      && r.planeArtResult == ws.planeArtResult
  {
    if !HasResult(ws.planeArtResult) then ws
    else ws.(tab := StencilTab, imageLoaded := true, settings := AiResultSettings(ws.settings))
  }

  /**
    Taking the picture of one of the AI dialogs (image to stencil, pro
    stencil) into the workspace: without a picture the settings stay, with
    one they become the AI-result settings.
   */
  function ApplyAiResult(prev: Settings, result: Option<string>): (r: Settings)
    ensures !HasResult(result) ==> r == prev
    ensures HasResult(result) ==> r == AiResultSettings(prev)
  {
    if HasResult(result) then AiResultSettings(prev) else prev
  }

  /**
    The AI-result settings are a fixed point: taking a second AI picture, or
    sending the plane-art result twice, leaves the same workspace as once.
   */
  lemma AiResultIdempotent(ws: Workspace, prev: Settings, result: Option<string>)
    ensures AiResultSettings(AiResultSettings(prev)) == AiResultSettings(prev)
    ensures ApplyAiResult(ApplyAiResult(prev, result), result) == ApplyAiResult(prev, result)
    ensures PlaneArtToStencil(PlaneArtToStencil(ws)) == PlaneArtToStencil(ws)
    ensures HasResult(ws.planeArtResult) ==>
      PlaneArtToStencil(ws).settings == ApplyAiResult(ws.settings, ws.planeArtResult)
  {
    Extensionality(AiResultSettings(AiResultSettings(prev)), AiResultSettings(prev));
    Extensionality(AiResultSettings(AiResultSettings(ws.settings)), AiResultSettings(ws.settings));
  }

  /**
    Under the AI-result settings a photo is thresholded directly: no blur,
    no flip, no inversion, so a pixel takes the line colour exactly when its
    gray value at contrast 10 and brightness 0 is below 127.5.
   */
  lemma AiResultIsPlainThreshold(img: Image, prev: Settings, sqrt: Root, y: nat, x: nat)
    requires img.Valid() && y < img.height && x < img.width
    ensures var line := HexToRgb(prev.lineColor);
      ProcessStencil(img, AiResultSettings(prev), sqrt).pixels[y][x] ==
      (if PixelGray(img.pixels[y][x], 10.0, 0.0) < 127.5 then Opaque(line) else Opaque(White))
  {
  }

  /** The download filter's test: every colour channel above 250. */
  predicate NearWhite(c: Rgb) {
    c.r > 250 && c.g > 250 && c.b > 250
  }

  /** One pixel of the download: near-white pixels become fully transparent, the rest are untouched. */
  function ExportPixel(p: Pixel): (q: Pixel)
    ensures q.Color() == p.Color()
    ensures NearWhite(p.Color()) ==> q.a == 0
    ensures !NearWhite(p.Color()) ==> q == p
  {
    if NearWhite(p.Color()) then p.(a := 0) else p
  }

  /** The download pass over a whole image. */
  function ExportTransparent(img: Image): (out: Image)
    requires img.Valid()
    ensures out.Valid() && out.width == img.width && out.height == img.height
    ensures forall y, x :: 0 <= y < img.height && 0 <= x < img.width ==>
      var p := img.pixels[y][x];
      var q := out.pixels[y][x];
      && q.Color() == p.Color()
      && (NearWhite(p.Color()) ==> q.a == 0)
      && (!NearWhite(p.Color()) ==> q.a == p.a)
  {
    Image(img.width, img.height, MapGrid(img.pixels, img.width, img.height, ExportPixel))
  }

  /** Exporting an already exported image changes nothing. */
  lemma ExportIdempotent(img: Image)
    requires img.Valid()
    ensures ExportTransparent(ExportTransparent(img)) == ExportTransparent(img)
  {
    var e := ExportTransparent(img);
    var e2 := ExportTransparent(e);
    forall y | 0 <= y < img.height
      ensures e2.pixels[y] == e.pixels[y]
    {
    }
  }

  /**
    Downloading a stencil whose line colour is not near white: line pixels
    stay opaque in the line colour and every background pixel becomes
    transparent, so alpha alone tells line from background.
   */
  lemma ExportedStencil(img: Image, s: Settings, sqrt: Root)
    requires img.Valid() && s.contrast != 259.0
    requires !NearWhite(HexToRgb(s.lineColor))
    ensures var out := ExportTransparent(ProcessStencil(img, s, sqrt));
      forall y, x :: 0 <= y < img.height && 0 <= x < img.width ==>
        && (out.pixels[y][x].a == 0 <==> out.pixels[y][x].Color() == White)
        && (out.pixels[y][x].a == 255 <==> out.pixels[y][x].Color() == HexToRgb(s.lineColor))
  {
  }
}
