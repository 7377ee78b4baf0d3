/**
  The sidebar's presets and slider ranges. Choosing a preset records its
  name and then writes the preset's values one key at a time; an unknown
  name records the name only.
 */
module Presets {
  import opened Raster
  import opened Types
  import opened Sobel
  import opened Dilate
  import opened Stencil
  import opened SettingsUpdate

  const LineartCleanPro: string := "LINEART CLEAN PRO"
  const RealisticPortraitSoft: string := "REALISTIC PORTRAIT SOFT"
  const TraditionalBoldStencil: string := "TRADITIONAL BOLD STENCIL"

  /** The values a preset writes, after the `activePreset` entry, in the order the sidebar lists them. */
  function PresetValues(name: string): (us: Updates)
    ensures !Mentions(us, ActivePresetKey) && !Mentions(us, LineColorKey) && !Mentions(us, FlipXKey)
    ensures !Mentions(us, OverlayModeKey) && !Mentions(us, OverlayOpacityKey)
    ensures name != LineartCleanPro && name != RealisticPortraitSoft && name != TraditionalBoldStencil ==> us == Done
  {
    if name == LineartCleanPro then
      Then(SetMode(Edge), Then(SetSmoothing(1.0), Then(SetDetail(100.0), Then(SetThickness(1.0),
      Then(SetContrast(0.0), Then(SetBrightness(0.0), Then(SetEdgeIntensity(50.0), Then(SetInvert(false), Done))))))))
    else if name == RealisticPortraitSoft then
      Then(SetMode(Mixed), Then(SetSmoothing(5.0), Then(SetDetail(30.0), Then(SetThickness(1.5),
      Then(SetContrast(25.0), Then(SetEdgeIntensity(90.0), Then(SetInvert(false), Done)))))))
    else if name == TraditionalBoldStencil then
      Then(SetMode(Threshold), Then(SetSmoothing(1.0), Then(SetDetail(60.0), Then(SetThickness(4.0),
      Then(SetContrast(40.0), Then(SetEdgeIntensity(100.0), Then(SetInvert(false), Done)))))))
    else
      Done
  }

  /** The updates issued for a preset, in the order they are applied: the name first, and only there. */
  function PresetUpdates(name: string): (us: Updates)
    ensures us.Then? && us.first == SetActivePreset(Some(name))
    ensures !Mentions(us.rest, ActivePresetKey)
  {
    Then(SetActivePreset(Some(name)), PresetValues(name))
  }

  /** When only the first update of a list names the active preset, its value is what stays recorded. */
  lemma RecordsFirst(s: Settings, us: Updates, p: Option<string>)
    requires us.Then? && us.first == SetActivePreset(p) && !Mentions(us.rest, ActivePresetKey)
    ensures ApplyUpdates(s, us).activePreset == p
  {
    var t := UpdateSetting(s, us.first);
    ApplyUpdatesGet(t, us.rest, ActivePresetKey);
    GetAfter(s, us.first, ActivePresetKey);
    assert Get(ApplyUpdates(s, us), ActivePresetKey) == PresetValue(p);
  }

  /** Applying the updates of a preset leaves every key that no update names. */
  lemma PresetFrame(s: Settings, name: string)
    ensures forall k :: !Mentions(PresetUpdates(name), k) ==>
      Get(ApplyUpdates(s, PresetUpdates(name)), k) == Get(s, k)
  {
    var us := PresetUpdates(name);
    forall k | !Mentions(us, k)
      ensures Get(ApplyUpdates(s, us), k) == Get(s, k)
    {
      ApplyUpdatesGet(s, us, k);
    }
  }

  /** Choosing a preset: the name is recorded, and every key the preset does not list keeps its value. */
  function ApplyPreset(s: Settings, name: string): (r: Settings)
    ensures r.activePreset == Some(name)
    ensures forall k :: !Mentions(PresetUpdates(name), k) ==> Get(r, k) == Get(s, k)
  {
    RecordsFirst(s, PresetUpdates(name), Some(name));
    PresetFrame(s, name);
    ApplyUpdates(s, PresetUpdates(name))
  }

  /** An unknown name records itself and changes nothing else. */
  lemma UnknownPresetOnlyRecords(s: Settings, name: string)
    requires name != LineartCleanPro && name != RealisticPortraitSoft && name != TraditionalBoldStencil
    ensures ApplyPreset(s, name) == s.(activePreset := Some(name))
  {
    assert PresetValues(name) == Done;
    assert ApplyPreset(s, name) == ApplyUpdates(s.(activePreset := Some(name)), Done);
  }

  /** The line-art preset: edge mode, light smoothing, full detail, thin neutral lines. */
  lemma LineartPreset(s: Settings)
    ensures ApplyPreset(s, LineartCleanPro) == s.(activePreset := Some(LineartCleanPro),
      mode := Edge, smoothing := 1.0, detail := 100.0, thickness := 1.0,
      contrast := 0.0, brightness := 0.0, edgeIntensity := 50.0, invert := false)
  {
    var t0 := s.(activePreset := Some(LineartCleanPro));
    UpdateSettingIs(s, SetActivePreset(Some(LineartCleanPro)));
    var t1 := t0.(mode := Edge);
    UpdateSettingIs(t0, SetMode(Edge));
    var t2 := t1.(smoothing := 1.0);
    UpdateSettingIs(t1, SetSmoothing(1.0));
    var t3 := t2.(detail := 100.0);
    UpdateSettingIs(t2, SetDetail(100.0));
    var t4 := t3.(thickness := 1.0);
    UpdateSettingIs(t3, SetThickness(1.0));
    var t5 := t4.(contrast := 0.0);
    UpdateSettingIs(t4, SetContrast(0.0));
    var t6 := t5.(brightness := 0.0);
    UpdateSettingIs(t5, SetBrightness(0.0));
    var t7 := t6.(edgeIntensity := 50.0);
    UpdateSettingIs(t6, SetEdgeIntensity(50.0));
    var t8 := t7.(invert := false);
    UpdateSettingIs(t7, SetInvert(false));
  }

  /** The portrait preset: mixed mode with thicker lines; brightness is not part of it and is kept. */
  lemma RealisticPreset(s: Settings)
    ensures ApplyPreset(s, RealisticPortraitSoft) == s.(activePreset := Some(RealisticPortraitSoft),
      mode := Mixed, smoothing := 5.0, detail := 30.0, thickness := 1.5,
      contrast := 25.0, edgeIntensity := 90.0, invert := false)
    ensures ApplyPreset(s, RealisticPortraitSoft).brightness == s.brightness
  {
    var t0 := s.(activePreset := Some(RealisticPortraitSoft));
    UpdateSettingIs(s, SetActivePreset(Some(RealisticPortraitSoft)));
    var t1 := t0.(mode := Mixed);
    UpdateSettingIs(t0, SetMode(Mixed));
    var t2 := t1.(smoothing := 5.0);
    UpdateSettingIs(t1, SetSmoothing(5.0));
    var t3 := t2.(detail := 30.0);
    UpdateSettingIs(t2, SetDetail(30.0));
    var t4 := t3.(thickness := 1.5);
    UpdateSettingIs(t3, SetThickness(1.5));
    var t5 := t4.(contrast := 25.0);
    UpdateSettingIs(t4, SetContrast(25.0));
    var t6 := t5.(edgeIntensity := 90.0);
    UpdateSettingIs(t5, SetEdgeIntensity(90.0));
    var t7 := t6.(invert := false);
    UpdateSettingIs(t6, SetInvert(false));
  }

  /** The bold preset: threshold mode at detail 60 with thickness 4; brightness is kept. */
  lemma TraditionalPreset(s: Settings)
    ensures ApplyPreset(s, TraditionalBoldStencil) == s.(activePreset := Some(TraditionalBoldStencil),
      mode := Threshold, smoothing := 1.0, detail := 60.0, thickness := 4.0,
      contrast := 40.0, edgeIntensity := 100.0, invert := false)
  {
    var t0 := s.(activePreset := Some(TraditionalBoldStencil));
    UpdateSettingIs(s, SetActivePreset(Some(TraditionalBoldStencil)));
    var t1 := t0.(mode := Threshold);
    UpdateSettingIs(t0, SetMode(Threshold));
    var t2 := t1.(smoothing := 1.0);
    UpdateSettingIs(t1, SetSmoothing(1.0));
    var t3 := t2.(detail := 60.0);
    UpdateSettingIs(t2, SetDetail(60.0));
    var t4 := t3.(thickness := 4.0);
    UpdateSettingIs(t3, SetThickness(4.0));
    var t5 := t4.(contrast := 40.0);
    UpdateSettingIs(t4, SetContrast(40.0));
    var t6 := t5.(edgeIntensity := 100.0);
    UpdateSettingIs(t5, SetEdgeIntensity(100.0));
    var t7 := t6.(invert := false);
    UpdateSettingIs(t6, SetInvert(false));
  }

  /** Whatever the name, the chosen preset is recorded, and line colour, flip and overlay are kept. */
  lemma PresetRecordsName(s: Settings, name: string)
    ensures ApplyPreset(s, name).activePreset == Some(name)
    ensures var r := ApplyPreset(s, name);
      r.lineColor == s.lineColor && r.flipX == s.flipX &&
      r.overlayMode == s.overlayMode && r.overlayOpacity == s.overlayOpacity
  {
    if name == LineartCleanPro {
      LineartPreset(s);
    } else if name == RealisticPortraitSoft {
      RealisticPreset(s);
    } else if name == TraditionalBoldStencil {
      TraditionalPreset(s);
    } else {
      UnknownPresetOnlyRecords(s, name);
    }
  }

  /** Choosing the same preset twice is choosing it once. */
  lemma PresetIdempotent(s: Settings, name: string)
    ensures ApplyPreset(ApplyPreset(s, name), name) == ApplyPreset(s, name)
  {
    if name == LineartCleanPro {
      LineartPreset(s);
      LineartPreset(ApplyPreset(s, name));
    } else if name == RealisticPortraitSoft {
      RealisticPreset(s);
      RealisticPreset(ApplyPreset(s, name));
    } else if name == TraditionalBoldStencil {
      TraditionalPreset(s);
      TraditionalPreset(ApplyPreset(s, name));
    } else {
      UnknownPresetOnlyRecords(s, name);
      UnknownPresetOnlyRecords(ApplyPreset(s, name), name);
    }
  }

  /** The ranges of the six adjustment sliders. */
  predicate InSliderRanges(s: Settings) {
    && 0.0 <= s.edgeIntensity <= 200.0
    && 1.0 <= s.thickness <= 10.0
    && 0.0 <= s.detail <= 100.0
    && 0.0 <= s.smoothing <= 10.0
    && -50.0 <= s.contrast <= 100.0
    && -100.0 <= s.brightness <= 100.0
  }

  /** The defaults sit inside the slider ranges. */
  lemma DefaultsInSliderRanges()
    ensures InSliderRanges(DefaultSettings)
  {
  }

  /** Inside the slider ranges the contrast stays clear of 259, where the contrast factor is undefined. */
  lemma SliderContrastIsSafe(s: Settings)
    requires InSliderRanges(s)
    ensures s.contrast != 259.0 && -255.0 < s.contrast
  {
  }

  /** Every preset keeps a record that is inside the slider ranges inside them. */
  lemma PresetsStayInSliderRanges(s: Settings, name: string)
    requires InSliderRanges(s)
    ensures InSliderRanges(ApplyPreset(s, name))
  {
    if name == LineartCleanPro {
      LineartPreset(s);
    } else if name == RealisticPortraitSoft {
      RealisticPreset(s);
    } else if name == TraditionalBoldStencil {
      TraditionalPreset(s);
    } else {
      UnknownPresetOnlyRecords(s, name);
    }
  }

  /** The bold preset's thickness 4 and intensity 100 have no effect: threshold mode ignores both. */
  lemma TraditionalIgnoresThickness(img: Image, s: Settings, sqrt: Root)
    requires img.Valid()
    ensures ApplyPreset(s, TraditionalBoldStencil).contrast != 259.0
    ensures var p := ApplyPreset(s, TraditionalBoldStencil);
      ProcessStencil(img, p, sqrt) == ProcessStencil(img, p.(thickness := 1.0, edgeIntensity := 0.0), sqrt)
  {
    TraditionalPreset(s);
    var p := ApplyPreset(s, TraditionalBoldStencil);
    ThresholdIgnoresEdgeSettings(img, p, sqrt, sqrt, 1.0, 0.0);
  }

  /**
    The portrait preset's thickness 1.5 gives dilation radius 0, so with a
    genuine square root it draws exactly what thickness 1 draws.
   */
  lemma RealisticThicknessHasNoEffect(img: Image, s: Settings, sqrt: Root)
    requires img.Valid() && RootLike(sqrt)
    ensures ApplyPreset(s, RealisticPortraitSoft).contrast != 259.0
    ensures var p := ApplyPreset(s, RealisticPortraitSoft);
      ProcessStencil(img, p, sqrt) == ProcessStencil(img, p.(thickness := 1.0), sqrt)
  {
    RealisticPreset(s);
    var p := ApplyPreset(s, RealisticPortraitSoft);
    var g := SmoothedGray(img, p.contrast, p.brightness, p.smoothing);
    var mags := Magnitudes(g, img.width, img.height, p.edgeIntensity, sqrt);
    MagnitudesNonNegative(g, img.width, img.height, p.edgeIntensity, sqrt);
    ThinThicknessIsIdentity(mags, img.width, img.height, p.thickness);
    assert EdgeStrength(g, img.width, img.height, p, sqrt) == EdgeStrength(g, img.width, img.height, p.(thickness := 1.0), sqrt);
  }
}
