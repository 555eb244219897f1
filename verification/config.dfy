/** Resolution of one controller's settings from three layers: the built-in
    defaults, the element's `data-*` attributes and the options object passed to
    the constructor. */
module Config {
  import opened JsValues

  /** The settings a bound controller reads on every move. The three hooks are not
      fields here: the controller's events are returned as records instead. */
  datatype Settings = Settings(
    activeClass: Prop<string>,
    attraction: Prop<real>,
    distance: Prop<real>,
    fraction: Prop<real>)

  /** The settings keys of an options object. */
  datatype Options = Options(
    activeClass: OptionKey<string>,
    attraction: OptionKey<real>,
    distance: OptionKey<real>,
    fraction: OptionKey<real>)

  /** `data-distance`, `data-attraction` and `data-fraction` after `parseFloat`:
      `None` when the attribute is missing or does not parse (the result is NaN). */
  datatype DataAttributes = DataAttributes(
    distance: Option<real>,
    attraction: Option<real>,
    fraction: Option<real>)

  const Defaults: Settings :=
    Settings(Defined("magnetizing"), Defined(0.3), Defined(200.0), Defined(0.1))

  const NoOptions: Options := Options(Absent, Absent, Absent, Absent)

  /** `key ?? fallback`: a missing key and a key holding `undefined` both fall back. */
  function Coalesce<T>(k: OptionKey<T>, fallback: Prop<T>): Prop<T>
  {
    match k
    case Present(v) => Defined(v)
    case _ => fallback
  }

  /** `!isNaN(parsed) ? parsed : key ?? fallback`, the per-field expression of the merge. */
  function DataOr(parsed: Option<real>, k: OptionKey<real>, fallback: Prop<real>): Prop<real>
  {
    match parsed
    case Some(v) => Defined(v)
    case None => Coalesce(k, fallback)
  }

  /** One key of an object spread: an own key overwrites, even when it holds `undefined`. */
  function SpreadKey<T>(k: OptionKey<T>, current: Prop<T>): Prop<T>
  {
    match k
    case Absent => current
    case PresentUndefined => Undefined
    case Present(v) => Defined(v)
  }

  /** `{...s, ...options}` restricted to the settings keys. */
  function Spread(s: Settings, o: Options): Settings
  {
    Settings(
      SpreadKey(o.activeClass, s.activeClass),
      SpreadKey(o.attraction, s.attraction),
      SpreadKey(o.distance, s.distance),
      SpreadKey(o.fraction, s.fraction))
  }

  /** The priority order one resolved field obeys: a present option key wins (its
      value, or `undefined` when it holds `undefined`); without one, a parsed data
      attribute wins; without either, the default applies. */
  predicate Layered<T(==)>(r: Prop<T>, default: T, data: Option<T>, k: OptionKey<T>)
  {
    && (k.Present? ==> r == Defined(k.value))
    && (k.PresentUndefined? ==> r == Undefined)
    && (k.Absent? && data.Some? ==> r == Defined(data.value))
    && (k.Absent? && data.None? ==> r == Defined(default))
  }

  /** The constructor's merge as written: the defaults, then each numeric field
      replaced by its data attribute or option-or-default, then every key of the
      options object spread over the result. */
  function Resolve(options: Options, data: DataAttributes): (s: Settings)
    ensures Layered(s.activeClass, "magnetizing", None, options.activeClass)
    ensures Layered(s.attraction, 0.3, data.attraction, options.attraction)
    ensures Layered(s.distance, 200.0, data.distance, options.distance)
    ensures Layered(s.fraction, 0.1, data.fraction, options.fraction)
  {
    var merged := Defaults.(
      attraction := DataOr(data.attraction, options.attraction, Defaults.attraction),
      distance := DataOr(data.distance, options.distance, Defaults.distance),
      fraction := DataOr(data.fraction, options.fraction, Defaults.fraction));
    Spread(merged, options)
  }

  /** No option key holds `undefined`. */
  predicate NoUndefinedKeys(o: Options)
  {
    !o.activeClass.PresentUndefined? && !o.attraction.PresentUndefined?
    && !o.distance.PresentUndefined? && !o.fraction.PresentUndefined?
  }

  predicate AllDefined(s: Settings)
  {
    s.activeClass.Defined? && s.attraction.Defined? && s.distance.Defined? && s.fraction.Defined?
  }

  /** A field is `undefined` after resolution exactly when its option key was
      written out with the value `undefined`: that key erases a numeric data
      attribute and the default alike. */
  lemma UndefinedOnlyFromOptions(options: Options, data: DataAttributes)
    ensures Resolve(options, data).distance.Undefined? <==> options.distance.PresentUndefined?
    ensures Resolve(options, data).attraction.Undefined? <==> options.attraction.PresentUndefined?
    ensures Resolve(options, data).fraction.Undefined? <==> options.fraction.PresentUndefined?
    ensures Resolve(options, data).activeClass.Undefined? <==> options.activeClass.PresentUndefined?
    ensures AllDefined(Resolve(options, data)) <==> NoUndefinedKeys(options)
  {
  }

  /** The option half of the per-field expression never decides the result: the
      merge equals one whose per-field expression is `parsed` or the default, with
      the options spread over it. */
  lemma MiddleOptionIsShadowed(options: Options, data: DataAttributes)
    ensures Resolve(options, data) ==
      Spread(Defaults.(
        attraction := DataOr(data.attraction, Absent, Defaults.attraction),
        distance := DataOr(data.distance, Absent, Defaults.distance),
        fraction := DataOr(data.fraction, Absent, Defaults.fraction)), options)
  {
  }

  /** With no data attributes and an empty options object every field takes its
      default: class `magnetizing`, attraction 0.3, distance 200, fraction 0.1. */
  lemma DefaultsApply()
    ensures Resolve(NoOptions, DataAttributes(None, None, None))
      == Settings(Defined("magnetizing"), Defined(0.3), Defined(200.0), Defined(0.1))
  {
  }

  /** The data-attribute test: `data-distance="50"` and `data-attraction="0.8"`
      with no options give distance 50 and attraction 0.8; `data-speed` is not an
      attribute the constructor reads, so the fraction stays at its default. */
  lemma DataAttributeScenario()
    ensures Resolve(NoOptions, DataAttributes(Some(50.0), Some(0.8), None))
      == Settings(Defined("magnetizing"), Defined(0.8), Defined(50.0), Defined(0.1))
  {
  }

  /** The options test: distance 300, attraction 0.5 and class `custom-active`
      replace the defaults; the fraction keeps its default. */
  lemma OptionsScenario()
    ensures Resolve(Options(Present("custom-active"), Present(0.5), Present(300.0), Absent), DataAttributes(None, None, None))
      == Settings(Defined("custom-active"), Defined(0.5), Defined(300.0), Defined(0.1))
  {
  }
}
