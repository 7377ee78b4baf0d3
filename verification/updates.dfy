/**
  Single-field updates of the settings record. The application replaces
  the record by a copy with one key overwritten; a preset is a sequence of
  such updates applied in order.
 */
module SettingsUpdate {
  import opened Types

  /** The keys of the settings record. */
  datatype Key =
    | ContrastKey | BrightnessKey | EdgeIntensityKey | ThicknessKey | DetailKey | SmoothingKey
    | ModeKey | InvertKey | FlipXKey | LineColorKey | ActivePresetKey | OverlayModeKey | OverlayOpacityKey

  /** The value stored under a key, tagged by its kind. */
  datatype Value =
    | Num(n: real)
    | Flag(b: bool)
    | ModeValue(m: Mode)
    | Text(t: string)
    | PresetValue(p: Option<string>)

  /** One update: a key together with a value of the key's type. */
  datatype Update =
    | SetContrast(contrast: real)
    | SetBrightness(brightness: real)
    | SetEdgeIntensity(edgeIntensity: real)
    | SetThickness(thickness: real)
    | SetDetail(detail: real)
    | SetSmoothing(smoothing: real)
    | SetMode(mode: Mode)
    | SetInvert(invert: bool)
    | SetFlipX(flipX: bool)
    | SetLineColor(lineColor: string)
    | SetActivePreset(activePreset: Option<string>)
    | SetOverlayMode(overlayMode: bool)
    | SetOverlayOpacity(overlayOpacity: real)
  {
    function KeyOf(): Key {
      match this
      case SetContrast(_) => ContrastKey
      case SetBrightness(_) => BrightnessKey
      case SetEdgeIntensity(_) => EdgeIntensityKey
      case SetThickness(_) => ThicknessKey
      case SetDetail(_) => DetailKey
      case SetSmoothing(_) => SmoothingKey
      case SetMode(_) => ModeKey
      case SetInvert(_) => InvertKey
      case SetFlipX(_) => FlipXKey
      case SetLineColor(_) => LineColorKey
      case SetActivePreset(_) => ActivePresetKey
      case SetOverlayMode(_) => OverlayModeKey
      case SetOverlayOpacity(_) => OverlayOpacityKey
    }

    function ValueOf(): Value {
      match this
      case SetContrast(v) => Num(v)
      case SetBrightness(v) => Num(v)
      case SetEdgeIntensity(v) => Num(v)
      case SetThickness(v) => Num(v)
      case SetDetail(v) => Num(v)
      case SetSmoothing(v) => Num(v)
      case SetMode(m) => ModeValue(m)
      case SetInvert(b) => Flag(b)
      case SetFlipX(b) => Flag(b)
      case SetLineColor(t) => Text(t)
      case SetActivePreset(p) => PresetValue(p)
      case SetOverlayMode(b) => Flag(b)
      case SetOverlayOpacity(v) => Num(v)
    }
  }

  /** Reads one key of a settings record. */
  function Get(s: Settings, k: Key): Value {
    match k
    case ContrastKey => Num(s.contrast)
    case BrightnessKey => Num(s.brightness)
    case EdgeIntensityKey => Num(s.edgeIntensity)
    case ThicknessKey => Num(s.thickness)
    case DetailKey => Num(s.detail)
    case SmoothingKey => Num(s.smoothing)
    case ModeKey => ModeValue(s.mode)
    case InvertKey => Flag(s.invert)
    case FlipXKey => Flag(s.flipX)
    case LineColorKey => Text(s.lineColor)
    case ActivePresetKey => PresetValue(s.activePreset)
    case OverlayModeKey => Flag(s.overlayMode)
    case OverlayOpacityKey => Num(s.overlayOpacity)
  }

  /** Two records agree on every key exactly when they are the same record. */
  lemma Extensionality(a: Settings, b: Settings)
    ensures (forall k :: Get(a, k) == Get(b, k)) <==> a == b
  {
    if forall k :: Get(a, k) == Get(b, k) {
      assert Get(a, ContrastKey) == Get(b, ContrastKey);
      assert Get(a, BrightnessKey) == Get(b, BrightnessKey);
      assert Get(a, EdgeIntensityKey) == Get(b, EdgeIntensityKey);
      assert Get(a, ThicknessKey) == Get(b, ThicknessKey);
      assert Get(a, DetailKey) == Get(b, DetailKey);
      assert Get(a, SmoothingKey) == Get(b, SmoothingKey);
      assert Get(a, ModeKey) == Get(b, ModeKey);
      assert Get(a, InvertKey) == Get(b, InvertKey);
      assert Get(a, FlipXKey) == Get(b, FlipXKey);
      assert Get(a, LineColorKey) == Get(b, LineColorKey);
      assert Get(a, ActivePresetKey) == Get(b, ActivePresetKey);
      assert Get(a, OverlayModeKey) == Get(b, OverlayModeKey);
      assert Get(a, OverlayOpacityKey) == Get(b, OverlayOpacityKey);
    }
  }

  /** The record with one key overwritten: the named key holds the new value, every other key its old one. */
  function UpdateSetting(s: Settings, u: Update): (r: Settings)
    ensures Get(r, u.KeyOf()) == u.ValueOf()
    ensures forall k :: k != u.KeyOf() ==> Get(r, k) == Get(s, k)
  {
    match u
    case SetContrast(v) => s.(contrast := v)
    case SetBrightness(v) => s.(brightness := v)
    case SetEdgeIntensity(v) => s.(edgeIntensity := v)
    case SetThickness(v) => s.(thickness := v)
    case SetDetail(v) => s.(detail := v)
    case SetSmoothing(v) => s.(smoothing := v)
    case SetMode(m) => s.(mode := m)
    case SetInvert(b) => s.(invert := b)
    case SetFlipX(b) => s.(flipX := b)
    case SetLineColor(t) => s.(lineColor := t)
    case SetActivePreset(p) => s.(activePreset := p)
    case SetOverlayMode(b) => s.(overlayMode := b)
    case SetOverlayOpacity(v) => s.(overlayOpacity := v)
  }

  /**
    The record an update produces, one constructor at a time. Calling this
    keeps each step of a long chain of updates a separate, small proof.
   */
  lemma UpdateSettingIs(s: Settings, u: Update)
    ensures u.SetContrast? ==> UpdateSetting(s, u) == s.(contrast := u.contrast)
    ensures u.SetBrightness? ==> UpdateSetting(s, u) == s.(brightness := u.brightness)
    ensures u.SetEdgeIntensity? ==> UpdateSetting(s, u) == s.(edgeIntensity := u.edgeIntensity)
    ensures u.SetThickness? ==> UpdateSetting(s, u) == s.(thickness := u.thickness)
    ensures u.SetDetail? ==> UpdateSetting(s, u) == s.(detail := u.detail)
    ensures u.SetSmoothing? ==> UpdateSetting(s, u) == s.(smoothing := u.smoothing)
    ensures u.SetMode? ==> UpdateSetting(s, u) == s.(mode := u.mode)
    ensures u.SetInvert? ==> UpdateSetting(s, u) == s.(invert := u.invert)
    ensures u.SetFlipX? ==> UpdateSetting(s, u) == s.(flipX := u.flipX)
    ensures u.SetLineColor? ==> UpdateSetting(s, u) == s.(lineColor := u.lineColor)
    ensures u.SetActivePreset? ==> UpdateSetting(s, u) == s.(activePreset := u.activePreset)
    ensures u.SetOverlayMode? ==> UpdateSetting(s, u) == s.(overlayMode := u.overlayMode)
    ensures u.SetOverlayOpacity? ==> UpdateSetting(s, u) == s.(overlayOpacity := u.overlayOpacity)
  {
  }

  /** The value at one key after an update. */
  lemma GetAfter(s: Settings, u: Update, k: Key)
    ensures Get(UpdateSetting(s, u), k) == if k == u.KeyOf() then u.ValueOf() else Get(s, k)
  {
  }

  /** At any one key, two updates of different keys give the same value in either order. */
  lemma CommuteAt(s: Settings, u: Update, v: Update, k: Key)
    requires u.KeyOf() != v.KeyOf()
    ensures Get(UpdateSetting(UpdateSetting(s, u), v), k) == Get(UpdateSetting(UpdateSetting(s, v), u), k)
  {
    GetAfter(s, u, k);
    GetAfter(s, v, k);
    GetAfter(UpdateSetting(s, u), v, k);
    GetAfter(UpdateSetting(s, v), u, k);
  }

  /** Updates of two different keys commute. */
  lemma UpdatesCommute(s: Settings, u: Update, v: Update)
    requires u.KeyOf() != v.KeyOf()
    ensures UpdateSetting(UpdateSetting(s, u), v) == UpdateSetting(UpdateSetting(s, v), u)
  {
    var a := UpdateSetting(UpdateSetting(s, u), v);
    var b := UpdateSetting(UpdateSetting(s, v), u);
    forall k
      ensures Get(a, k) == Get(b, k)
    {
      CommuteAt(s, u, v, k);
    }
    Extensionality(a, b);
  }

  /** Of two updates of the same key, the later one wins. */
  lemma LastWriteWins(s: Settings, u: Update, v: Update)
    requires u.KeyOf() == v.KeyOf()
    ensures UpdateSetting(UpdateSetting(s, u), v) == UpdateSetting(s, v)
  {
    Extensionality(UpdateSetting(UpdateSetting(s, u), v), UpdateSetting(s, v));
  }

  /** Writing back the value a key already holds changes nothing. */
  lemma UpdateWithCurrentValue(s: Settings, u: Update)
    requires Get(s, u.KeyOf()) == u.ValueOf()
    ensures UpdateSetting(s, u) == s
  {
    Extensionality(UpdateSetting(s, u), s);
  }

  /** An ordered list of updates, applied first to last. */
  datatype Updates = Done | Then(first: Update, rest: Updates)

  /** The updates applied one after another, each to the record the previous one produced. */
  function ApplyUpdates(s: Settings, us: Updates): Settings
    decreases us
  {
    match us
    case Done => s
    case Then(u, rest) => ApplyUpdates(UpdateSetting(s, u), rest)
  }

  /** Whether some update in the list names key `k`. */
  predicate Mentions(us: Updates, k: Key) {
    match us
    case Done => false
    case Then(u, rest) => u.KeyOf() == k || Mentions(rest, k)
  }

  /** The value the last update of key `k` writes, or `prior` when none names it. */
  function LastValue(us: Updates, k: Key, prior: Value): Value
  {
    match us
    case Done => prior
    case Then(u, rest) => LastValue(rest, k, if u.KeyOf() == k then u.ValueOf() else prior)
  }

  /** After a list of updates each key holds the value of its last update, or its old value if none names it. */
  lemma {:induction false} ApplyUpdatesGet(s: Settings, us: Updates, k: Key)
    ensures Get(ApplyUpdates(s, us), k) == LastValue(us, k, Get(s, k))
    ensures !Mentions(us, k) ==> Get(ApplyUpdates(s, us), k) == Get(s, k)
    decreases us
  {
    match us
    case Done =>
    case Then(u, rest) =>
      ApplyUpdatesGet(UpdateSetting(s, u), rest, k);
  }
}
