/** A Gregorian calendar, used as the reference against which the widget's
    day annotation is judged. */
module Calendar {

  datatype Date = Date(year: int, month: int, day: int)

  predicate IsLeapYear(y: int)
  {
    y % 4 == 0 && (y % 100 != 0 || y % 400 == 0)
  }

  function DaysInMonth(y: int, m: int): (n: int)
    requires 1 <= m <= 12
    ensures 28 <= n <= 31
    ensures n == 31 <==> m in {1, 3, 5, 7, 8, 10, 12}
  {
    if m == 2 then (if IsLeapYear(y) then 29 else 28)
    else if m in {4, 6, 9, 11} then 30
    else 31
  }

  predicate Valid(d: Date)
  {
    1 <= d.month <= 12 && 1 <= d.day <= DaysInMonth(d.year, d.month)
  }

  /** The calendar day after d. */
  function Next(d: Date): (n: Date)
    requires Valid(d)
    ensures Valid(n)
  {
    if d.day < DaysInMonth(d.year, d.month) then d.(day := d.day + 1)
    else if d.month < 12 then Date(d.year, d.month + 1, 1)
    else Date(d.year + 1, 1, 1)
  }

  /** The calendar day before d. */
  function Previous(d: Date): (p: Date)
    requires Valid(d)
    ensures Valid(p)
  {
    if d.day > 1 then d.(day := d.day - 1)
    else if d.month > 1 then Date(d.year, d.month - 1, DaysInMonth(d.year, d.month - 1))
    else Date(d.year - 1, 12, 31)
  }
}

/** The "(Next Day)" / "(Previous Day)" annotation appended to a converted time. */
module DayLabels {
  import opened Calendar

  const NextDayLabel := " (Next Day)"
  const PreviousDayLabel := " (Previous Day)"

  /** Where the destination timestamp lies relative to the source timestamp
      (the outcome of the two Date comparisons). */
  datatype Order = Earlier | Simultaneous | Later

  function Flip(o: Order): Order
  {
    match o
    case Earlier => Later
    case Simultaneous => Simultaneous
    case Later => Earlier
  }

  /** The annotation for a day-of-month difference (destination minus source)
      and the order of the two timestamps; a difference of -30 or +30 is read as
      a crossing of a month boundary. */
  function Annotation(dayDiff: int, order: Order): (tag: string)
    ensures tag == NextDayLabel || tag == PreviousDayLabel || tag == ""
    ensures tag == "" ==> dayDiff != 1 && dayDiff != -1
  {
    if dayDiff == 1 || (dayDiff == -30 && order == Later) then NextDayLabel
    else if dayDiff == -1 || (dayDiff == 30 && order == Earlier) then PreviousDayLabel
    else ""
  }

  /** The decision table: each label has its own condition, the two conditions
      never hold together, so the order of the tests does not matter. */
  lemma AnnotationTable(dayDiff: int, order: Order)
    ensures Annotation(dayDiff, order) == NextDayLabel <==> dayDiff == 1 || (dayDiff == -30 && order == Later)
    ensures Annotation(dayDiff, order) == PreviousDayLabel <==> dayDiff == -1 || (dayDiff == 30 && order == Earlier)
    ensures Annotation(dayDiff, order) == "" <==>
              !(dayDiff == 1 || (dayDiff == -30 && order == Later)) &&
              !(dayDiff == -1 || (dayDiff == 30 && order == Earlier))
  {
    assert NextDayLabel != PreviousDayLabel by { assert NextDayLabel[2] != PreviousDayLabel[2]; }
  }

  /** Exchanging source and destination exchanges the two labels. */
  lemma AnnotationSwap(dayDiff: int, order: Order)
    ensures Annotation(dayDiff, order) == NextDayLabel <==> Annotation(-dayDiff, Flip(order)) == PreviousDayLabel
    ensures Annotation(dayDiff, order) == "" <==> Annotation(-dayDiff, Flip(order)) == ""
  {
    AnnotationTable(dayDiff, order);
    AnnotationTable(-dayDiff, Flip(order));
  }

  /** Two timestamps on the same calendar day get no annotation. */
  lemma SameDayUnlabelled(order: Order)
    ensures Annotation(0, order) == ""
  {
  }

  /** A destination on the next calendar day is labelled "(Next Day)" exactly
      when no month boundary is crossed or the month that ends has 31 days;
      after a 28-, 29- or 30-day month it gets no label, and never the
      "(Previous Day)" one. */
  lemma NextDayCrossing(s: Date)
    requires Valid(s)
    ensures Annotation(Next(s).day - s.day, Later) == NextDayLabel <==>
              s.day < DaysInMonth(s.year, s.month) || DaysInMonth(s.year, s.month) == 31
    ensures Annotation(Next(s).day - s.day, Later) != PreviousDayLabel
  {
    AnnotationTable(Next(s).day - s.day, Later);
  }

  /** A destination on the previous calendar day is labelled "(Previous Day)"
      exactly when no month boundary is crossed or the month before has 31
      days; otherwise it gets no label, and never the "(Next Day)" one. */
  lemma PreviousDayCrossing(s: Date)
    requires Valid(s)
    ensures Annotation(Previous(s).day - s.day, Earlier) == PreviousDayLabel <==>
              s.day > 1 || DaysInMonth(Previous(s).year, Previous(s).month) == 31
    ensures Annotation(Previous(s).day - s.day, Earlier) != NextDayLabel
  {
    AnnotationTable(Previous(s).day - s.day, Earlier);
  }
}
