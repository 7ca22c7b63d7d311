/**
 * The validator on the values the program's number parser can actually
 * produce: besides finite numbers, the text "inf", "-inf" and "nan" parse as
 * the IEEE 754 infinities and the not-a-number value. Every ordered
 * comparison with not-a-number is false, so a range test written as
 * "below the minimum or above the maximum" lets it through.
 */
module FloatReadings {
  import opened Quality

  /** A parsed double, with its exact value when finite. */
  datatype Float = Finite(value: real) | PosInf | NegInf | NaN

  /** IEEE 754 `x < c` against a finite constant. */
  predicate Below(x: Float, c: real)
  {
    match x
    case Finite(v) => v < c
    case NegInf => true
    case PosInf => false
    case NaN => false
  }

  /** IEEE 754 `x > c` against a finite constant. */
  predicate Above(x: Float, c: real)
  {
    match x
    case Finite(v) => v > c
    case PosInf => true
    case NegInf => false
    case NaN => false
  }

  /** The validator as written: each range test rejects only a value ordered outside the bounds. */
  function ValidateAsWritten(weight: Float, colour: string, length: Float): (v: Verdict)
    ensures v == Rejected(WeightOutOfRange) <==> Below(weight, MIN_WEIGHT) || Above(weight, MAX_WEIGHT)
    ensures v.Accepted? ==> !weight.NegInf? && !weight.PosInf? && !length.NegInf? && !length.PosInf?
  {
    if Below(weight, MIN_WEIGHT) || Above(weight, MAX_WEIGHT) then Rejected(WeightOutOfRange)
    else if colour !in VALID_COLOURS then Rejected(ColourNotConforming)
    else if Below(length, MIN_LENGTH) || Above(length, MAX_LENGTH) then Rejected(LengthOutOfRange)
    else Accepted
  }

  /** A part whose weight and length both read "nan" is approved. */
  lemma NaNReadingAccepted()
    ensures ValidateAsWritten(NaN, "azul", NaN) == Accepted
  {
  }

  /** A value passes a range test only when it lies in the closed interval. */
  predicate InRangeF(x: Float, lo: real, hi: real)
  {
    x.Finite? && InRange(x.value, lo, hi)
  }

  /** The intended validator: a value that is not a number in range fails its criterion. */
  function ValidateFloat(weight: Float, colour: string, length: Float): (v: Verdict)
    ensures v.Accepted? <==>
      && weight.Finite? && length.Finite?
      && FailedCriteria(weight.value, colour, length.value) == []
    ensures weight.NaN? ==> v == Rejected(WeightOutOfRange)
  {
    if !InRangeF(weight, MIN_WEIGHT, MAX_WEIGHT) then Rejected(WeightOutOfRange)
    else if colour !in VALID_COLOURS then Rejected(ColourNotConforming)
    else if !InRangeF(length, MIN_LENGTH, MAX_LENGTH) then Rejected(LengthOutOfRange)
    else Accepted
  }

  /** On finite readings the intended validator is the one the inventory model uses. */
  lemma ValidateFloatOnFinite(weight: real, colour: string, length: real)
    ensures ValidateFloat(Finite(weight), colour, Finite(length)) == Validate(weight, colour, length)
  {
  }

  /**
   * The two validators disagree only where a reading is not a number, and
   * there the program approves what the intended validator rejects.
   */
  lemma DisagreeOnlyOnNaN(weight: Float, colour: string, length: Float)
    ensures ValidateAsWritten(weight, colour, length) != ValidateFloat(weight, colour, length)
            <==> ((weight.NaN? || (colour in VALID_COLOURS && InRangeF(weight, MIN_WEIGHT, MAX_WEIGHT) && length.NaN?)))
    ensures ValidateAsWritten(weight, colour, length) != ValidateFloat(weight, colour, length) ==>
              ValidateFloat(weight, colour, length).Rejected?
  {
  }
}
