/**
 * Quality criteria of the inspection line and the part validator.
 * The validator checks weight, then colour, then length, and reports only
 * the first criterion that fails.
 */
module Quality {

  const MIN_WEIGHT: real := 95.0
  const MAX_WEIGHT: real := 105.0
  const VALID_COLOURS: seq<string> := ["azul", "verde"]
  const MIN_LENGTH: real := 10.0
  const MAX_LENGTH: real := 20.0

  /** One reason per criterion, standing for the program's three fixed messages. */
  datatype Reason = WeightOutOfRange | ColourNotConforming | LengthOutOfRange

  datatype Verdict = Accepted | Rejected(reason: Reason)

  /** Closed interval membership. */
  predicate InRange(x: real, lo: real, hi: real)
  {
    lo <= x <= hi
  }

  /**
   * Reference definition: every criterion the measurements fail, in the
   * fixed check order. The validator must report the head of this list.
   */
  function FailedCriteria(weight: real, colour: string, length: real): seq<Reason>
  {
    (if InRange(weight, MIN_WEIGHT, MAX_WEIGHT) then [] else [WeightOutOfRange])
    + (if colour in VALID_COLOURS then [] else [ColourNotConforming])
    + (if InRange(length, MIN_LENGTH, MAX_LENGTH) then [] else [LengthOutOfRange])
  }

  /** The program's validator: short-circuits on the first failing check. */
  function Validate(weight: real, colour: string, length: real): (v: Verdict)
    ensures v.Accepted? <==> FailedCriteria(weight, colour, length) == []
    ensures v.Rejected? ==> v.reason == FailedCriteria(weight, colour, length)[0]
  {
    if weight < MIN_WEIGHT || weight > MAX_WEIGHT then Rejected(WeightOutOfRange)
    else if colour !in VALID_COLOURS then Rejected(ColourNotConforming)
    else if length < MIN_LENGTH || length > MAX_LENGTH then Rejected(LengthOutOfRange)
    else Accepted
  }

  /** A weight out of range decides the verdict: colour and length are never looked at. */
  lemma WeightCheckedFirst(weight: real, colour: string, length: real, colour': string, length': real)
    requires !InRange(weight, MIN_WEIGHT, MAX_WEIGHT)
    ensures Validate(weight, colour, length) == Rejected(WeightOutOfRange)
    ensures Validate(weight, colour, length) == Validate(weight, colour', length')
  {
  }

  /** With the weight in range, an invalid colour decides the verdict whatever the length. */
  lemma ColourCheckedSecond(weight: real, colour: string, length: real, length': real)
    requires InRange(weight, MIN_WEIGHT, MAX_WEIGHT) && colour !in VALID_COLOURS
    ensures Validate(weight, colour, length) == Rejected(ColourNotConforming)
    ensures Validate(weight, colour, length) == Validate(weight, colour, length')
  {
  }

  /** With weight and colour valid, the verdict depends on the length alone. */
  lemma LengthDecidesLast(weight: real, colour: string, weight': real, colour': string, length: real)
    requires InRange(weight, MIN_WEIGHT, MAX_WEIGHT) && colour in VALID_COLOURS
    requires InRange(weight', MIN_WEIGHT, MAX_WEIGHT) && colour' in VALID_COLOURS
    ensures Validate(weight, colour, length) == Validate(weight', colour', length)
    ensures Validate(weight, colour, length)
            == if InRange(length, MIN_LENGTH, MAX_LENGTH) then Accepted else Rejected(LengthOutOfRange)
  {
  }

  /** All four bounds are inclusive, and just outside each bound is rejected. */
  lemma BoundsInclusive()
    ensures Validate(95.0, "verde", 10.0) == Accepted
    ensures Validate(105.0, "azul", 20.0) == Accepted
    ensures Validate(94.9, "azul", 15.0) == Rejected(WeightOutOfRange)
    ensures Validate(105.1, "azul", 15.0) == Rejected(WeightOutOfRange)
    ensures Validate(100.0, "azul", 9.9) == Rejected(LengthOutOfRange)
    ensures Validate(100.0, "azul", 20.1) == Rejected(LengthOutOfRange)
  {
  }
}
