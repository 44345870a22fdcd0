/** The input checks of `get_nutrition_assist` in lib/DL/nutition.py: the
    age-indexed weight and height limit tables built at import time, the age in
    months computed from the date of birth, and the three checks a request must
    pass before the model is prompted. Limits are exact reals (the source's
    floats, without rounding); `datetime.strptime` and `datetime.today()` are
    parameters. */
module Nutrition {
  import opened Wrappers
  import opened Common
  import PyStr

  /** The literal entries for months 0..11 of `max_weight_by_month` (kg). */
  const EARLY_WEIGHT: seq<real> := [4.5, 5.5, 6.5, 7.5, 8.2, 8.8, 9.2, 9.6, 10.0, 10.4, 10.8, 11.2]
  /** The literal entries for months 0..11 of `max_height_by_month` (feet). */
  const EARLY_HEIGHT: seq<real> := [1.8, 1.9, 2.0, 2.1, 2.2, 2.3, 2.4, 2.5, 2.6, 2.7, 2.8, 2.9]

  /** `max_weight_by_month.get(m)`: the literal entries, then `4 + (m // 12) * 3`
      for the months of years 1 to 10 (12 through 120). */
  function WeightLimit(m: int): (r: Option<real>)
    ensures r.Some? <==> 0 <= m <= 120
  {
    if 0 <= m < 12 then Some(EARLY_WEIGHT[m])
    else if 12 <= m <= 120 then Some(4.0 + (m / 12 * 3) as real)
    else None
  }

  /** `max_height_by_month.get(m)`: the literal entries, then
      `2.8 + (m // 12 - 1) * 0.2` for the months 12 through 119 only. */
  function HeightLimit(m: int): (r: Option<real>)
    ensures r.Some? <==> 0 <= m <= 119
  {
    if 0 <= m < 12 then Some(EARLY_HEIGHT[m])
    else if 12 <= m < 120 then Some(2.8 + (m / 12 - 1) as real * 0.2)
    else None
  }

  /** The module-level construction of `max_weight_by_month`: the literal
      dictionary, then a loop over `range(12, 121)`. */
  method BuildWeightTable() returns (table: map<int, real>)
    ensures forall m :: m in table <==> WeightLimit(m).Some?
    ensures forall m :: m in table ==> Some(table[m]) == WeightLimit(m)
  {
    table := map m | 0 <= m < 12 :: EARLY_WEIGHT[m];
    for m := 12 to 121
      invariant forall k :: k in table <==> 0 <= k < m
      invariant forall k :: k in table ==> Some(table[k]) == WeightLimit(k)
    {
      var ageYears := m / 12;
      table := table[m := 4.0 + (ageYears * 3) as real];
    }
  }

  /** The module-level construction of `max_height_by_month`: the literal
      dictionary, then a loop over `range(12, 121)` that skips year 10. */
  method BuildHeightTable() returns (table: map<int, real>)
    ensures forall m :: m in table <==> HeightLimit(m).Some?
    ensures forall m :: m in table ==> Some(table[m]) == HeightLimit(m)
  {
    table := map m | 0 <= m < 12 :: EARLY_HEIGHT[m];
    for m := 12 to 121
      invariant forall k :: k in table <==> 0 <= k < m && k < 120
      invariant forall k :: k in table ==> Some(table[k]) == HeightLimit(k)
    {
      var ageYears := m / 12;
      if ageYears < 10 {
        table := table[m := 2.8 + (ageYears - 1) as real * 0.2];
      }
    }
  }

  /** From the first birthday on, the weight limit is constant within each year
      of age and rises by 3 kg per year, from 7 kg to 34 kg. */
  lemma WeightYearly(m: int)
    requires 12 <= m <= 120
    ensures WeightLimit(m) == WeightLimit(m / 12 * 12)
    ensures 7.0 <= WeightLimit(m).value <= 34.0
    ensures m + 12 <= 120 ==> WeightLimit(m + 12).value == WeightLimit(m).value + 3.0
  {
    assert (m + 12) / 12 == m / 12 + 1;
  }

  /** From the first birthday on, the height limit is constant within each year
      of age and rises by 0.2 ft per year, from 2.8 ft to 4.4 ft. */
  lemma HeightYearly(m: int)
    requires 12 <= m <= 119
    ensures HeightLimit(m) == HeightLimit(m / 12 * 12)
    ensures 2.8 <= HeightLimit(m).value <= 4.4
    ensures m + 12 <= 119 ==> HeightLimit(m + 12).value == HeightLimit(m).value + 0.2
  {
    assert (m + 12) / 12 == m / 12 + 1;
  }

  /** Neither table grows with age across the first birthday: at 11 months a
      child may weigh 11.2 kg and measure 2.9 ft, at 12 months only 7 kg and
      2.8 ft. */
  lemma FirstBirthdayDrop()
    ensures WeightLimit(11) == Some(11.2) && WeightLimit(12) == Some(7.0)
    ensures HeightLimit(11) == Some(2.9) && HeightLimit(12) == Some(2.8)
  {
  }

  /** Within the first year, both limits rise month by month. */
  lemma FirstYearRising(m: int)
    requires 0 <= m < 11
    ensures WeightLimit(m).value < WeightLimit(m + 1).value
    ensures HeightLimit(m).value < HeightLimit(m + 1).value
  {
  }

  /** A calendar date as `strptime` returns it. */
  datatype Date = Date(year: int, month: int, day: int)

  /** `dob_str.split("T")[0].strip()`: the text before the first `T`, stripped. */
  function DatePart(dob: string): (r: string)
    ensures r == PyStr.Strip(PyStr.Split(dob, "T")[0])
    ensures |r| <= |dob|
  {
    var first := PyStr.Split(dob, "T")[0];
    PyStr.SplitFirst(dob, "T");
    PyStr.Strip(first)
  }

  /** Months between two dates counted by year and month only. */
  function MonthsBetween(dob: Date, today: Date): int {
    (today.year - dob.year) * 12 + (today.month - dob.month)
  }

  const UNPARSABLE_DATE: Failure := Unhandled("ValueError")

  /** `calculate_age_in_months(dob_str)`, with `parse` for `strptime(.., "%Y-%m-%d")`
      (`None` where it raises `ValueError`) and `today` for `datetime.today()`. */
  function AgeInMonths(dob: string, today: Date, parse: string -> Option<Date>): (r: Result<int, Failure>)
    ensures r.Failure? <==> parse(DatePart(dob)).None?
    ensures r.Failure? ==> r.error == UNPARSABLE_DATE
    ensures r.Success? ==> r.value == MonthsBetween(parse(DatePart(dob)).value, today)
  {
    match parse(DatePart(dob))
    case None => Failure(UNPARSABLE_DATE)
    case Some(d) => Success(MonthsBetween(d, today))
  }

  /** Everything from the first `T` on is ignored: a timestamp and its date
      give the same age. */
  lemma TimeOfDayIgnored(date: string, time: string, today: Date, parse: string -> Option<Date>)
    requires 'T' !in date
    ensures AgeInMonths(date + "T" + time, today, parse) == AgeInMonths(date, today, parse)
  {
    var s := date + "T" + time;
    PyStr.ContainsChar(date, 'T');
    PyStr.SplitAbsent(date, "T");
    assert PyStr.OccursAt(s, "T", |date|);
    forall j | 0 <= j < |date| ensures !PyStr.OccursAt(s, "T", j) {
      assert s[j..j + 1] == [date[j]];
    }
    assert PyStr.FindFrom(s, "T", 0) == |date|;
    assert s[..|date|] == date;
  }

  /** The day of the month is ignored, and a year adds twelve months. */
  lemma AgeIgnoresDay(dob: Date, today: Date, d1: int, d2: int)
    ensures MonthsBetween(Date(dob.year, dob.month, d1), today) == MonthsBetween(Date(dob.year, dob.month, d2), today)
    ensures MonthsBetween(dob, Date(today.year + 1, today.month, today.day)) == MonthsBetween(dob, today) + 12
  {
  }

  const AGE_OUT_OF_RANGE: Failure := HttpError(400, "Age out of range. Please ensure age is between 0 and 10 years.")
  const TOO_HEAVY: Failure := HttpError(400, "Unrealistic weight for child's age.")
  const TOO_TALL: Failure := HttpError(400, "Unrealistic height for child's age.")
  /** `max_height_by_month[age_months]` for a month the height table lacks. */
  const NO_HEIGHT_LIMIT: Failure := Unhandled("KeyError")

  /** The range, weight and height checks, in the source's order. The age range
      is the weight table's key set; each limit rejects only a value strictly
      above it. */
  function CheckLimits(age: int, weight: real, height: real): (r: Outcome<Failure>)
    ensures r == Fail(AGE_OUT_OF_RANGE) <==> age < 0 || age > 120
    ensures r == Fail(TOO_HEAVY) <==> 0 <= age <= 120 && weight > WeightLimit(age).value
    ensures r == Fail(NO_HEIGHT_LIMIT) <==> age == 120 && weight <= 34.0
    ensures r == Fail(TOO_TALL) <==>
      0 <= age <= 119 && weight <= WeightLimit(age).value && height > HeightLimit(age).value
    ensures r == Pass <==>
      0 <= age <= 119 && weight <= WeightLimit(age).value && height <= HeightLimit(age).value
  {
    if WeightLimit(age).None? then Fail(AGE_OUT_OF_RANGE)
    else if weight > WeightLimit(age).value then Fail(TOO_HEAVY)
    else if HeightLimit(age).None? then Fail(NO_HEIGHT_LIMIT)
    else if height > HeightLimit(age).value then Fail(TOO_TALL)
    else Pass
  }

  /** The checks `get_nutrition_assist` makes before prompting the model: the
      age (a date that does not parse raises first), then the limits. */
  function CheckChild(dob: string, today: Date, parse: string -> Option<Date>, weight: real, height: real): (r: Outcome<Failure>)
    ensures AgeInMonths(dob, today, parse).Failure? ==> r == Fail(UNPARSABLE_DATE)
    ensures AgeInMonths(dob, today, parse).Success? ==>
      r == CheckLimits(AgeInMonths(dob, today, parse).value, weight, height)
    ensures r == Pass ==> 0 <= AgeInMonths(dob, today, parse).value < 120
  {
    match AgeInMonths(dob, today, parse)
    case Failure(e) => Fail(e)
    case Success(age) => CheckLimits(age, weight, height)
  }

  /** A child ten years old to the month gets past the age check but, unless
      too heavy, fails on the missing height entry instead of a 400. */
  lemma TenYearOldHitsMissingHeight(weight: real, height: real)
    ensures WeightLimit(120).Some? && HeightLimit(120).None?
    ensures weight <= 34.0 ==> CheckLimits(120, weight, height) == Fail(NO_HEIGHT_LIMIT)
    ensures weight > 34.0 ==> CheckLimits(120, weight, height) == Fail(TOO_HEAVY)
  {
  }
}
