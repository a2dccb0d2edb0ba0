/** An `{ r, g, b }` record, used both for a sphere's flat colour and for the
    reflectances and emissions of the lighting model. */
module Colors {

  datatype Color = Color(r: real, g: real, b: real)

  const Black := Color(0.0, 0.0, 0.0)

  /** One of the three channels, so that a property can be stated once for all of them. */
  datatype Channel = Red | Green | Blue

  function Component(c: Color, ch: Channel): real
  {
    match ch
    case Red => c.r
    case Green => c.g
    case Blue => c.b
  }

  predicate NonNegative(c: Color)
  {
    c.r >= 0.0 && c.g >= 0.0 && c.b >= 0.0
  }
}
