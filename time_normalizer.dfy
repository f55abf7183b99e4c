/**
 The time normaliser of the light-curve regression utilities: a time stamp is
 given in one of three conventions, told apart only by its magnitude, and is
 converted to Julian Date (JD).

   - Snoopy date: MJD minus 53000, recognised by being below 53000;
   - JD: recognised by being above 2400000.5;
   - MJD (JD minus 2400000.5): everything in between, both thresholds included.

 Times are exact reals: the floating-point rounding of the program is not
 modelled.
 */
module TimeNormalizer {

  /** A Snoopy date is an MJD minus this offset. */
  const SnoopyOffset: real := 53000.0

  /** An MJD is a JD minus this offset. */
  const MjdOffset: real := 2400000.5

  /** The date convention a time stamp is read in. */
  datatype Convention = Snoopy | Mjd | Jd

  /**
   Picks the convention of a time stamp by its value alone. Both comparisons
   are strict, so 53000 and 2400000.5 themselves are read as MJD.
   */
  function Classify(date: real): (c: Convention)
    ensures c == Snoopy <==> date < SnoopyOffset
    ensures c == Jd <==> date > MjdOffset
    ensures c == Mjd <==> SnoopyOffset <= date <= MjdOffset
  {
    if date < SnoopyOffset then Snoopy
    else if date > MjdOffset then Jd
    else Mjd
  }

  /** The JD of a value read in convention `c`. */
  function ToJd(value: real, c: Convention): real
  {
    match c
    case Snoopy => value + SnoopyOffset + MjdOffset
    case Mjd => value + MjdOffset
    case Jd => value
  }

  /** The value in convention `c` of a JD; the inverse of ToJd. */
  function FromJd(jd: real, c: Convention): real
  {
    match c
    case Snoopy => jd - MjdOffset - SnoopyOffset
    case Mjd => jd - MjdOffset
    case Jd => jd
  }

  /** Reading a JD back in a convention and converting it again is the identity, in both orders. */
  lemma ToJdFromJd(value: real, jd: real, c: Convention)
    ensures FromJd(ToJd(value, c), c) == value
    ensures ToJd(FromJd(jd, c), c) == jd
  {
  }

  /**
   Normalises one time stamp to JD: a Snoopy date is first shifted to MJD,
   an MJD is shifted to JD, a JD is left alone.
   */
  function ConvertToJd(date: real): (jd: real)
    ensures date < SnoopyOffset ==> jd == date + SnoopyOffset + MjdOffset
    ensures SnoopyOffset <= date <= MjdOffset ==> jd == date + MjdOffset
    ensures date > MjdOffset ==> jd == date
    ensures FromJd(jd, Classify(date)) == date
  {
    var c := Classify(date);
    var shifted := if c == Snoopy then date + SnoopyOffset else date;
    if c == Jd then ToJd(shifted, Jd) else ToJd(shifted, Mjd)
  }

  /** Normalises every element of a sequence of time stamps, each on its own. */
  function ConvertAllToJd(dates: seq<real>): (jds: seq<real>)
    ensures |jds| == |dates|
    ensures forall i :: 0 <= i < |dates| ==> jds[i] == ConvertToJd(dates[i])
    decreases |dates|
  {
    if |dates| == 0 then []
    else ConvertAllToJd(dates[..|dates| - 1]) + [ConvertToJd(dates[|dates| - 1])]
  }

  /**
   Classification is per element: converting a concatenation converts each
   part as if it were alone, whatever conventions its neighbours use.
   */
  lemma ConvertAllToJdAppend(a: seq<real>, b: seq<real>)
    ensures ConvertAllToJd(a + b) == ConvertAllToJd(a) + ConvertAllToJd(b)
  {
  }

  /**
   One MJD `mjd` whose Snoopy form is still below 53000 denotes the same
   instant in all three conventions: as Snoopy date, as MJD and as JD.
   */
  lemma SameInstantInEveryConvention(mjd: real)
    requires SnoopyOffset <= mjd < 2.0 * SnoopyOffset
    ensures ConvertToJd(mjd - SnoopyOffset) == ConvertToJd(mjd)
    ensures ConvertToJd(mjd) == ConvertToJd(mjd + MjdOffset)
    ensures Classify(mjd - SnoopyOffset) == Snoopy
    ensures Classify(mjd) == Mjd
    ensures Classify(mjd + MjdOffset) == Jd
  {
  }

  /** Snoopy 500, MJD 53500 and JD 2453500.5 all normalise to JD 2453500.5. */
  lemma ConvertToJdExample()
    ensures ConvertToJd(500.0) == 2453500.5
    ensures ConvertToJd(53500.0) == 2453500.5
    ensures ConvertToJd(2453500.5) == 2453500.5
  {
  }

  /** The thresholds themselves are read as MJD: neither comparison includes its bound. */
  lemma ThresholdsAreMjd()
    ensures Classify(SnoopyOffset) == Mjd && ConvertToJd(SnoopyOffset) == SnoopyOffset + MjdOffset
    ensures Classify(MjdOffset) == Mjd && ConvertToJd(MjdOffset) == MjdOffset + MjdOffset
  {
  }

  /**
   The result lies above the JD threshold exactly when the input is above
   -53000 (every MJD and JD input, and Snoopy dates above -53000).
   */
  lemma ConvertToJdAboveThreshold(date: real)
    ensures ConvertToJd(date) > MjdOffset <==> date > -SnoopyOffset
  {
  }

  /**
   Normalising twice is the same as normalising once exactly when the first
   result is read as JD again; a result at or below 2400000.5 is shifted a
   second time.
   */
  lemma ConvertToJdIdempotent(date: real)
    ensures ConvertToJd(ConvertToJd(date)) == ConvertToJd(date) <==> ConvertToJd(date) > MjdOffset
    ensures ConvertToJd(ConvertToJd(date)) == ConvertToJd(date) <==> date > -SnoopyOffset
  {
  }
}
