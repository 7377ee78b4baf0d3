/**
  The stencil settings record, its processing-mode tag and the defaults
  the application starts from (types.ts).
 */
module Types {

  datatype Option<T> = None | Some(value: T)

  /** The three line-extraction strategies. */
  datatype Mode = Edge | Threshold | Mixed

  /**
    One settings record. Numeric fields are exact reals: the sliders produce
    `parseFloat` values and a preset sets a thickness of 1.5.
   */
  datatype Settings = Settings(
    contrast: real,
    brightness: real,
    edgeIntensity: real,
    thickness: real,
    detail: real,
    smoothing: real,
    mode: Mode,
    invert: bool,
    flipX: bool,
    lineColor: string,
    activePreset: Option<string>,
    overlayMode: bool,
    overlayOpacity: real)

  const DefaultSettings: Settings := Settings(
    contrast := 10.0,
    brightness := 0.0,
    edgeIntensity := 80.0,
    thickness := 1.0,
    detail := 30.0,
    smoothing := 2.0,
    mode := Edge,
    invert := false,
    flipX := false,
    lineColor := "#000000",
    activePreset := Some("custom"),
    overlayMode := false,
    overlayOpacity := 50.0)

  /** The ranges documented beside each field of the settings record. */
  predicate InDocumentedRanges(s: Settings) {
    && -100.0 <= s.contrast <= 100.0
    && -100.0 <= s.brightness <= 100.0
    && 0.0 <= s.edgeIntensity <= 100.0
    && 1.0 <= s.thickness <= 10.0
    && 0.0 <= s.detail <= 100.0
    && 0.0 <= s.smoothing <= 10.0
    && 0.0 <= s.overlayOpacity <= 100.0
  }

  /** The defaults respect every documented range. */
  lemma DefaultsInDocumentedRanges()
    ensures InDocumentedRanges(DefaultSettings)
  {
  }

  /** The defaults are edge mode, not inverted, not mirrored. */
  lemma DefaultsPlainEdge()
    ensures DefaultSettings.mode == Edge
    ensures !DefaultSettings.invert && !DefaultSettings.flipX
    ensures DefaultSettings.thickness <= 1.0
  {
  }

  /** Every default value, as the settings record's initial value lists them. */
  lemma DefaultSettingsValues()
    ensures DefaultSettings.contrast == 10.0 && DefaultSettings.brightness == 0.0
    ensures DefaultSettings.edgeIntensity == 80.0 && DefaultSettings.thickness == 1.0
    ensures DefaultSettings.detail == 30.0 && DefaultSettings.smoothing == 2.0
    ensures DefaultSettings.mode == Edge && !DefaultSettings.invert && !DefaultSettings.flipX
    ensures DefaultSettings.lineColor == "#000000" && DefaultSettings.activePreset == Some("custom")
    ensures !DefaultSettings.overlayMode && DefaultSettings.overlayOpacity == 50.0
  {
  }
}
