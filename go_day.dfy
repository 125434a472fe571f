/**
 * The `day` option of `/go` (bot.js `parseGoDay`). The current date in
 * Korean time and the day after it come from the wall clock and are
 * parameters here.
 */
module GoDay {
  import opened Outcomes
  import opened JsBuiltins

  /** "오늘" (today) */
  const TodayWord: string := "\U{C624}\U{B298}"

  /** "내일" (tomorrow) */
  const TomorrowWord: string := "\U{B0B4}\U{C77C}"

  /** The `^\d{4}-\d{2}-\d{2}$` shape. */
  predicate IsDateShape(raw: string) {
    |raw| == 10 && raw[4] == '-' && raw[7] == '-'
    && AllDigits(raw[..4]) && AllDigits(raw[5..7]) && AllDigits(raw[8..])
  }

  function MonthOf(raw: string): nat
    requires IsDateShape(raw)
  {
    DigitsValue(raw[5..7])
  }

  function DayOf(raw: string): nat
    requires IsDateShape(raw)
  {
    DigitsValue(raw[8..])
  }

  /** A literal date the bot accepts: the shape, a month 1..12 and a day 1..31. */
  predicate IsAcceptedDate(raw: string) {
    IsDateShape(raw) && 1 <= MonthOf(raw) <= 12 && 1 <= DayOf(raw) <= 31
  }

  /** The `YYYY-MM-DD` branch of `parseGoDay`: the literal itself, or null. */
  function LiteralDay(raw: string): (r: Option<string>)
    ensures r.Some? <==> IsAcceptedDate(raw)
    ensures r.Some? ==> r.value == raw
  {
    if !IsDateShape(raw) then None
    else if MonthOf(raw) < 1 || MonthOf(raw) > 12 then None
    else if DayOf(raw) < 1 || DayOf(raw) > 31 then None
    else Some(raw)
  }

  /**
   * `parseGoDay(dayRaw)`: an absent or empty day, "오늘" or "today" in any
   * letter case is today; "내일" or "tomorrow" is tomorrow; otherwise the
   * `YYYY-MM-DD` branch decides.
   */
  function ParseGoDay(dayRaw: Option<string>, today: string, tomorrow: string): (r: Option<string>)
    ensures r.Some? ==> r.value == today || r.value == tomorrow || IsAcceptedDate(r.value)
  {
    var raw := Trim(if dayRaw.Some? then dayRaw.value else "");
    if raw == [] || raw == TodayWord || LowerEquals(raw, "today") then Some(today)
    else if raw == TomorrowWord || LowerEquals(raw, "tomorrow") then Some(tomorrow)
    else LiteralDay(raw)
  }

  /** A `YYYY-MM-DD` literal is returned as given exactly when its month and day are in range. */
  lemma LiteralDate(raw: string, today: string, tomorrow: string)
    requires IsDateShape(raw)
    ensures ParseGoDay(Some(raw), today, tomorrow) == if IsAcceptedDate(raw) then Some(raw) else None
  {
    assert Trim(raw) == raw by {
      assert IsDigit(raw[..4][0]) && IsDigit(raw[8..][1]);
      TrimUnpadded(raw);
    }
    assert |TodayWord| == 2 && |TomorrowWord| == 2;
    assert !LowerEquals(raw, "today") && !LowerEquals(raw, "tomorrow");
  }

  /** Text that is not a keyword and not of the `YYYY-MM-DD` shape is rejected. */
  lemma MalformedDay(raw: string, today: string, tomorrow: string)
    requires raw == Trim(raw) && raw != []
    requires raw != TodayWord && raw != TomorrowWord
    requires !LowerEquals(raw, "today") && !LowerEquals(raw, "tomorrow")
    requires !IsDateShape(raw)
    ensures ParseGoDay(Some(raw), today, tomorrow) == None
  {
  }
}
