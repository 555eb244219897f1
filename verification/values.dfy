/** JavaScript values as the magnetic-button controller observes them: optional
    values, properties that may hold `undefined`, option keys that may be absent,
    present-but-`undefined` or present, and numbers that may be NaN. */
module JsValues {

  /** A value that may be missing, such as an attribute that did not parse. */
  datatype Option<+T> = None | Some(value: T)

  /** A property of a settings object: a value, or `undefined`. */
  datatype Prop<+T> = Defined(value: T) | Undefined

  /** A key of an options object. `PresentUndefined` is a key written out with the
      value `undefined`: it is an own property, so an object spread copies it. */
  datatype OptionKey<+T> = Absent | PresentUndefined | Present(value: T)

  /** A JavaScript number. Magnitudes are unbounded (no infinities are modelled);
      NaN is kept because `undefined` turns into NaN in arithmetic. */
  datatype Num = Finite(v: real) | NaN

  /** The numeric value of a property: `undefined` converts to NaN. */
  function ToNumber(p: Prop<real>): Num
  {
    match p
    case Defined(x) => Finite(x)
    case Undefined => NaN
  }

  /** JavaScript `*`: NaN when either operand is NaN. */
  function Times(a: Num, b: Num): Num
  {
    if a.Finite? && b.Finite? then Finite(a.v * b.v) else NaN
  }

  /** JavaScript `<`: false whenever either operand is NaN. */
  predicate Less(a: Num, b: Num)
  {
    a.Finite? && b.Finite? && a.v < b.v
  }
}
