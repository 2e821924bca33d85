/** The three-colour water-level indicator: the colour for a sensor distance
    and the background class for a colour. */
module Utils {
  import opened Common

  /** A JavaScript number. */
  datatype JsNumber = NaN | NegInfinity | Finite(value: real) | PosInfinity

  datatype Led3Color = Green | Orange | Red

  /** `a <= b` on numbers that are not NaN. */
  predicate AtMost(a: JsNumber, b: JsNumber)
    requires !a.NaN? && !b.NaN?
  {
    match (a, b)
    case (NegInfinity, _) => true
    case (_, PosInfinity) => true
    case (Finite(x), Finite(y)) => x <= y
    case _ => false
  }

  /** The colour for a distance from the sensor to the water surface, in
      centimetres: none for a missing or NaN distance; green up to 16
      inclusive; orange below 20; red from 20 on. */
  function Led3(distance: Option<JsNumber>): (c: Option<Led3Color>)
    ensures c.None? <==> distance.None? || distance.value.NaN?
    ensures c == Some(Green) <==> distance.Some? && !distance.value.NaN? && AtMost(distance.value, Finite(16.0))
    ensures c == Some(Red) <==> distance.Some? && !distance.value.NaN? && AtMost(Finite(20.0), distance.value)
  {
    if distance.None? then None
    else match distance.value
      case NaN => None
      case NegInfinity => Some(Green)
      case PosInfinity => Some(Red)
      case Finite(d) => if d <= 16.0 then Some(Green) else if d < 20.0 then Some(Orange) else Some(Red)
  }

  function Severity(c: Led3Color): nat {
    match c
    case Green => 0
    case Orange => 1
    case Red => 2
  }

  /** A greater distance (a lower water level) never gives a milder colour. */
  lemma Led3Monotone(a: JsNumber, b: JsNumber)
    requires !a.NaN? && !b.NaN? && AtMost(a, b)
    ensures Led3(Some(a)).Some? && Led3(Some(b)).Some?
    ensures Severity(Led3(Some(a)).value) <= Severity(Led3(Some(b)).value)
  {
  }

  /** The background class of the indicator. */
  function Led3ColorToBg(led: Option<Led3Color>): (cls: string)
    ensures led == Some(Green) ==> cls == "bg-emerald-500"
    ensures led == Some(Orange) ==> cls == "bg-amber-500"
    ensures led == Some(Red) ==> cls == "bg-red-500"
    ensures led.None? ==> cls == "bg-gray-400"
  {
    match led
    case Some(Green) => "bg-emerald-500"
    case Some(Orange) => "bg-amber-500"
    case Some(Red) => "bg-red-500"
    case None => "bg-gray-400"
  }

  /** Distinct colours, and no colour, get distinct classes. */
  lemma Led3ColorToBgInjective(a: Option<Led3Color>, b: Option<Led3Color>)
    requires Led3ColorToBg(a) == Led3ColorToBg(b)
    ensures a == b
  {
  }
}
