/** Small value types shared by the whole model. */
module Base {

  datatype Option<+T> = None | Some(value: T) {
    function GetOr(default: T): T {
      match this
      case Some(v) => v
      case None => default
    }
  }

  /** An IEEE-754 single-precision value, kept as its bit pattern. No float
      arithmetic is modelled; the zero literal `0.0` is the all-zero pattern. */
  datatype Float32 = Float32(bits: bv32)

  const Float32Zero: Float32 := Float32(0)

  /** A (latitude, longitude) pair in degrees, as the source's `(f32, f32)`. */
  datatype Location = Location(lat: Float32, lon: Float32)

  function Min(a: nat, b: nat): nat { if a <= b then a else b }

  /** The sum of a sequence of naturals. */
  function Sum(xs: seq<nat>): nat {
    if xs == [] then 0 else Sum(xs[..|xs| - 1]) + xs[|xs| - 1]
  }
}
