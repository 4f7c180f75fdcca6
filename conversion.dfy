/** One conversion of a source city and time into a destination city: the
    guard on empty inputs, the registry lookups, the request sent to the
    conversion service, and the display derived from the service's reply.
    The three conversion variants of the component differ only in where the
    source city, source time and destination city come from; here all three
    are parameters. */
module Conversion {
  import opened Text
  import opened CityRegistry
  import opened DayLabels
  import TimeOptions

  /** The fixed text a row shows when a conversion fails. */
  const ErrorText := "Error converting time"

  /** The body of the POST to the conversion service (its `dstAmbiguity` is
      always empty and is left implicit). */
  datatype ApiRequest = ApiRequest(fromTimeZone: string, dateTime: string, toTimeZone: string)

  /** What the service's answer amounts to: a failed request (non-success
      status or a network error), a body without `conversionResult`, or a
      converted time together with the day-of-month difference and the order
      of the two timestamps. */
  datatype Reply = RequestFailed | MissingResult | Converted(time: string, dayDiff: int, order: Order)

  /** What a row shows: its time and its day annotation. */
  datatype Display = Display(time: string, date: string)

  /** The naive source timestamp: today's date, a space, the hours and the
      minutes of `time` split at ':', and zero seconds. A time without a colon
      has no minutes part, which JavaScript renders as "undefined". */
  function NaiveTimestamp(today: string, time: string): (r: string)
    ensures |r| >= |today| + 5
    ensures r[..|today| + 1] == today + " "
    ensures r[|r| - 3..] == ":00"
  {
    var parts := Split(time, ':');
    var minutes := if |parts| >= 2 then parts[1] else "undefined";
    today + " " + parts[0] + ":" + minutes + ":00"
  }

  /** A time with exactly one colon is reproduced verbatim in the timestamp. */
  lemma {:induction false} TimestampOfClockTime(today: string, time: string)
    requires |Split(time, ':')| == 2
    ensures NaiveTimestamp(today, time) == today + " " + time + ":00"
  {
    var parts := Split(time, ':');
    JoinSplit(time, ':');
    assert Join(parts[1..], ':') == parts[1];
    assert time == parts[0] + ":" + parts[1];
  }

  /** Every offered time option yields "<today> HH:MM:00". */
  lemma {:induction false} TimestampOfOption(today: string, i: nat)
    requires i < 48
    ensures NaiveTimestamp(today, TimeOptions.Options()[i]) == today + " " + TimeOptions.Options()[i] + ":00"
  {
    TimeOptions.OptionSplits(i);
    TimestampOfClockTime(today, TimeOptions.Options()[i]);
  }

  /** What a conversion call depends on besides its three inputs: the city
      table of the component and the current calendar date (`today`, as
      "YYYY-MM-DD"). */
  datatype Env = Env(cities: seq<City>, today: string)

  /** What a conversion call does before any reply: clear the row, report an
      invalid city, or send a request. */
  datatype Plan = ClearRow | InvalidCity | Send(request: ApiRequest)

  function PlanFor(env: Env, sourceCity: string, sourceTime: string, destCity: string): (p: Plan)
    ensures p.ClearRow? <==> sourceCity == "" || destCity == "" || sourceTime == ""
    ensures p.InvalidCity? <==>
              sourceCity != "" && destCity != "" && sourceTime != "" &&
              (!Known(env.cities, sourceCity) || !Known(env.cities, destCity))
    ensures p.Send? ==>
              exists s, d :: s in env.cities && d in env.cities && s.name == sourceCity && d.name == destCity &&
                p.request == ApiRequest(s.timezone, NaiveTimestamp(env.today, sourceTime), d.timezone)
  {
    if sourceCity == "" || destCity == "" || sourceTime == "" then ClearRow
    else
      match (Find(env.cities, sourceCity), Find(env.cities, destCity))
      case (Some(s), Some(d)) => Send(ApiRequest(s.timezone, NaiveTimestamp(env.today, sourceTime), d.timezone))
      case _ => InvalidCity
  }

  /** The display written once the service has answered. */
  function Finish(reply: Reply): (d: Display)
    ensures !reply.Converted? ==> d == Display(ErrorText, "")
    ensures reply.Converted? ==> d.time == reply.time && d.date == Annotation(reply.dayDiff, reply.order)
    ensures d.date in {NextDayLabel, PreviousDayLabel, ""}
  {
    match reply
    case Converted(time, dayDiff, order) =>
      AnnotationTable(dayDiff, order);
      Display(time, Annotation(dayDiff, order))
    case _ => Display(ErrorText, "")
  }

  /** The display a row ends up with when one conversion runs to completion
      and the service, if asked, gives `reply`. */
  function Outcome(env: Env, sourceCity: string, sourceTime: string, destCity: string, reply: Reply): (d: Display)
    ensures (sourceCity == "" || destCity == "" || sourceTime == "") ==> d == Display("", "")
    ensures (sourceCity != "" && destCity != "" && sourceTime != "" &&
             (!Known(env.cities, sourceCity) || !Known(env.cities, destCity))) ==> d == Display(ErrorText, "")
    ensures (sourceCity != "" && destCity != "" && sourceTime != "" &&
             Known(env.cities, sourceCity) && Known(env.cities, destCity)) ==> d == Finish(reply)
    ensures d.date != "" ==> reply.Converted? && d.time == reply.time
  {
    match PlanFor(env, sourceCity, sourceTime, destCity)
    case ClearRow => Display("", "")
    case InvalidCity => Display(ErrorText, "")
    case Send(_) => Finish(reply)
  }
}
