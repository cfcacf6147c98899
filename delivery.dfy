// The delivery status of the top-level row: overdue, due today, or the
// pre-formatted delivery text. Dates are local calendar day numbers; the
// clock is the parameter `today`.

module Delivery {
  import opened Wrappers

  /** A parsed due date: its local calendar day, or a date that did not parse
      (JavaScript's Invalid Date, whose time value is NaN). */
  datatype DueDate = OnDay(day: int) | InvalidDate

  datatype Status = Status(text: string, highlight: bool, isDelayed: bool)

  const OverdueLabel := "ATRASADO"
  const TodayLabel := "HOJE"

  predicate DueBy(raw: Option<DueDate>, today: int) {
    raw.Some? && raw.value.OnDay? && raw.value.day <= today
  }

  predicate Overdue(raw: Option<DueDate>, today: int) {
    raw.Some? && raw.value.OnDay? && raw.value.day < today
  }

  /** `getDeliveryStatus`, with the day difference taken on calendar days. */
  function DeliveryStatus(raw: Option<DueDate>, deliveryDate: string, today: int): (r: Status)
    ensures r.isDelayed <==> Overdue(raw, today)
    ensures r.highlight <==> DueBy(raw, today)
    ensures r.isDelayed ==> r.highlight
    ensures r.text == (if r.isDelayed then OverdueLabel else if r.highlight then TodayLabel else deliveryDate)
    ensures !DueBy(raw, today) ==> r == Status(deliveryDate, false, false)
  {
    match raw
    case None => Status(deliveryDate, false, false)
    case Some(due) =>
      match due
      case InvalidDate => Status(deliveryDate, false, false)
      case OnDay(day) =>
        var diffDays := day - today;
        if diffDays < 0 then Status(OverdueLabel, true, true)
        else if diffDays == 0 then Status(TodayLabel, true, false)
        else Status(deliveryDate, false, false)
  }

  /** Without a due date the status is the fallback text, whatever day it is. */
  lemma NoDueDateIgnoresToday(deliveryDate: string, today1: int, today2: int)
    ensures DeliveryStatus(None, deliveryDate, today1) == DeliveryStatus(None, deliveryDate, today2)
    ensures DeliveryStatus(None, deliveryDate, today1) == Status(deliveryDate, false, false)
  {
  }

  /** The three outcomes for a due date, by the sign of the day difference. */
  lemma DueDateCases(day: int, deliveryDate: string, today: int)
    ensures day < today ==> DeliveryStatus(Some(OnDay(day)), deliveryDate, today) == Status(OverdueLabel, true, true)
    ensures day == today ==> DeliveryStatus(Some(OnDay(day)), deliveryDate, today) == Status(TodayLabel, true, false)
    ensures day > today ==> DeliveryStatus(Some(OnDay(day)), deliveryDate, today) == Status(deliveryDate, false, false)
  {
  }

  /** As days pass, a highlighted or overdue status stays so. */
  lemma StatusMonotone(raw: Option<DueDate>, deliveryDate: string, today1: int, today2: int)
    requires today1 <= today2
    ensures DeliveryStatus(raw, deliveryDate, today1).highlight ==> DeliveryStatus(raw, deliveryDate, today2).highlight
    ensures DeliveryStatus(raw, deliveryDate, today1).isDelayed ==> DeliveryStatus(raw, deliveryDate, today2).isDelayed
  {
  }

  /** Only the due day's distance to today matters. */
  lemma StatusShiftInvariant(day: int, deliveryDate: string, today: int, shift: int)
    ensures DeliveryStatus(Some(OnDay(day + shift)), deliveryDate, today + shift) == DeliveryStatus(Some(OnDay(day)), deliveryDate, today)
  {
  }

  // ---------------------------------------------------------------------------
  // The millisecond computation as written
  // ---------------------------------------------------------------------------

  const MillisPerDay := 1000 * 60 * 60 * 24
  const MillisPerHour := 1000 * 60 * 60

  /** Math.ceil(a / b) for b > 0, on integers. */
  function CeilDiv(a: int, b: int): (q: int)
    requires b > 0
    ensures (q - 1) * b < a <= q * b
  {
    -((-a) / b)
  }

  /** `getDeliveryStatus` as written: the span between the two local midnights in
      milliseconds, divided by the length of a day and rounded up. */
  function StatusFromSpanAsWritten(span: int, deliveryDate: string): (r: Status)
    ensures r.isDelayed <==> span <= -MillisPerDay
    ensures r.highlight <==> span <= 0
    ensures r.text == (if r.isDelayed then OverdueLabel else if r.highlight then TodayLabel else deliveryDate)
  {
    var diffDays := CeilDiv(span, MillisPerDay);
    if diffDays < 0 then Status(OverdueLabel, true, true)
    else if diffDays == 0 then Status(TodayLabel, true, false)
    else Status(deliveryDate, false, false)
  }

  /** When every day in between has 24 hours, the written computation is the day difference. */
  lemma WholeDaysAgree(day: int, deliveryDate: string, today: int)
    ensures StatusFromSpanAsWritten((day - today) * MillisPerDay, deliveryDate) == DeliveryStatus(Some(OnDay(day)), deliveryDate, today)
  {
    var span := (day - today) * MillisPerDay;
    assert CeilDiv(span, MillisPerDay) == day - today;
  }

  /** When the clocks went forward on the due day, that day's midnight is 23 hours
      before today's: the written computation rounds -23/24 up to zero and says
      "HOJE" for a car due yesterday. */
  lemma SpringForwardSaysToday(deliveryDate: string, today: int)
    ensures StatusFromSpanAsWritten(-23 * MillisPerHour, deliveryDate) == Status(TodayLabel, true, false)
    ensures DeliveryStatus(Some(OnDay(today - 1)), deliveryDate, today) == Status(OverdueLabel, true, true)
  {
  }

  /** The span divided by a day, rounded to the nearest whole day. */
  function RoundDiv(a: int, b: int): (q: int)
    requires b > 0
    ensures q * b - b / 2 <= a < q * b + b - b / 2
  {
    (a + b / 2) / b
  }

  /** The computation rounded to the nearest day instead of up. */
  function StatusFromSpan(span: int, deliveryDate: string): (r: Status)
    ensures r.isDelayed <==> span < -MillisPerDay / 2
    ensures r.highlight <==> span < MillisPerDay / 2
    ensures r.isDelayed ==> r.highlight
    ensures r.text == (if r.isDelayed then OverdueLabel else if r.highlight then TodayLabel else deliveryDate)
  {
    var diffDays := RoundDiv(span, MillisPerDay);
    if diffDays < 0 then Status(OverdueLabel, true, true)
    else if diffDays == 0 then Status(TodayLabel, true, false)
    else Status(deliveryDate, false, false)
  }

  /** Rounded to the nearest day, a span off from whole days by less than half a day
      (a daylight-saving change is one hour) gives the calendar-day status. */
  lemma RoundedSpanAgrees(day: int, deliveryDate: string, today: int, drift: int)
    requires -MillisPerDay / 2 <= drift < MillisPerDay / 2
    ensures StatusFromSpan((day - today) * MillisPerDay + drift, deliveryDate) == DeliveryStatus(Some(OnDay(day)), deliveryDate, today)
  {
    var d := day - today;
    assert (d * MillisPerDay + drift) + MillisPerDay / 2 == d * MillisPerDay + (drift + MillisPerDay / 2);
    assert 0 <= drift + MillisPerDay / 2 < MillisPerDay;
    var q := RoundDiv(d * MillisPerDay + drift, MillisPerDay);
    assert q == d;
  }
}
