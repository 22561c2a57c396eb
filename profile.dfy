/** The pure display helpers of frontend/src/pages/Profile.jsx: the colour of a
    detection's prediction and the header date of `getCurrentDate` (its day
    suffix and its `small` / `medium` / full formats). The page's verdict
    vote and rating colour are the MyClaimChecks members. The calendar
    fields that `new Date()` supplies are parameters here. */
module Profile {
  import opened JsText

  /** `getPredictionColor` (lines 174-178). */
  function PredictionColor(prediction: string): (c: string)
    ensures c == "red" <==> prediction == "Fake"
    ensures c == "green" <==> prediction == "True"
    ensures c == "orange" <==> prediction != "Fake" && prediction != "True"
  {
    if prediction == "Fake" then "red"
    else if prediction == "True" then "green"
    else "orange"
  }

  /** The ordinal suffix of a day of the month (lines 196-203). */
  function DateSuffix(date: nat): (s: string)
    ensures s in ["st", "nd", "rd", "th"]
    ensures s == "st" <==> date % 10 == 1 && date != 11
    ensures s == "nd" <==> date % 10 == 2 && date != 12
    ensures s == "rd" <==> date % 10 == 3 && date != 13
  {
    if date % 10 == 1 && date != 11 then "st"
    else if date % 10 == 2 && date != 12 then "nd"
    else if date % 10 == 3 && date != 13 then "rd"
    else "th"
  }

  /** Over the days of a month: 1, 21 and 31 take "st", 2 and 22 "nd", 3 and
      23 "rd", and every other day, 11, 12 and 13 included, "th". */
  lemma DaySuffixOfMonth(date: nat)
    requires 1 <= date <= 31
    ensures DateSuffix(date) == "st" <==> date == 1 || date == 21 || date == 31
    ensures DateSuffix(date) == "nd" <==> date == 2 || date == 22
    ensures DateSuffix(date) == "rd" <==> date == 3 || date == 23
    ensures DateSuffix(date) == "th" <==> !(date in {1, 2, 3, 21, 22, 23, 31})
  {
  }

  const DAY_NAMES: seq<string> := ["Sunday", "Monday", "Tuesday", "Wednesday", "Thursday", "Friday", "Saturday"]
  const MONTH_NAMES: seq<string> :=
    ["January", "February", "March", "April", "May", "June", "July", "August", "September", "October",
     "November", "December"]

  /** `getCurrentDate(dateFormat)` (lines 186-218) for the day of the week
      `weekday` (0 is Sunday), the month `month` (0 is January), the day of the
      month `date` and the year `year`. */
  function CurrentDate(dateFormat: string, weekday: nat, month: nat, date: nat, year: nat): string
    requires weekday < 7 && month < 12
  {
    var dayName := DAY_NAMES[weekday];
    var monthName := MONTH_NAMES[month];
    var dateSuffix := DateSuffix(date);
    if dateFormat == "small" then
      PadStart2(DecimalString(date)) + "/" + PadStart2(DecimalString(month + 1)) + "/" + SliceLast2(DecimalString(year))
    else if dateFormat == "medium" then
      var shortDayName := dayName[..3];
      shortDayName + DateTail(monthName, date, year)
    else
      dayName + DateTail(monthName, date, year)
  }

  /** The part after the weekday: `, <month> <date><suffix>, <year>`. */
  function DateTail(monthName: string, date: nat, year: nat): string
  {
    ", " + monthName + " " + DecimalString(date) + DateSuffix(date) + ", " + DecimalString(year)
  }

  /** Two decimal digits. */
  function TwoDigits(n: nat): string
    requires n < 100
  {
    [DigitChar(n / 10), DigitChar(n % 10)]
  }

  /** The `small` format is DD/MM/YY: day and one-based month padded to two
      digits, and the last two digits of the year. */
  lemma SmallFormat(weekday: nat, month: nat, date: nat, year: nat)
    requires weekday < 7 && month < 12 && 1 <= date <= 31 && year >= 10
    ensures CurrentDate("small", weekday, month, date, year)
         == TwoDigits(date) + "/" + TwoDigits(month + 1) + "/" + TwoDigits(year % 100)
    ensures |CurrentDate("small", weekday, month, date, year)| == 8
  {
    PaddedTwoDigits(date);
    PaddedTwoDigits(month + 1);
    LastTwoDigits(year);
    PaddedTwoDigits(year % 100);
  }

  /** The `medium` format is the full format with the weekday shortened to its
      first three letters. */
  lemma MediumFormat(weekday: nat, month: nat, date: nat, year: nat)
    requires weekday < 7 && month < 12
    ensures var full := CurrentDate("full", weekday, month, date, year);
            var medium := CurrentDate("medium", weekday, month, date, year);
            && |DAY_NAMES[weekday]| >= 3
            && medium[..3] == DAY_NAMES[weekday][..3]
            && full[..|DAY_NAMES[weekday]|] == DAY_NAMES[weekday]
            && medium[3..] == full[|DAY_NAMES[weekday]|..]
  {
    var dayName := DAY_NAMES[weekday];
    DayNamesLong(weekday);
    var rest := DateTail(MONTH_NAMES[month], date, year);
    assert "full" != "small" && "full" != "medium" && "medium" != "small";
    var full := CurrentDate("full", weekday, month, date, year);
    var medium := CurrentDate("medium", weekday, month, date, year);
    assert full == dayName + rest;
    assert medium == dayName[..3] + rest;
    assert (dayName + rest)[..|dayName|] == dayName;
    assert (dayName + rest)[|dayName|..] == rest;
    assert (dayName[..3] + rest)[..3] == dayName[..3];
    assert (dayName[..3] + rest)[3..] == rest;
  }

  lemma DayNamesLong(weekday: nat)
    requires weekday < 7
    ensures |DAY_NAMES[weekday]| >= 6
  {
  }
}
