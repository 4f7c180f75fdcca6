/** The component's state and its event handlers. The state is the source
    city, the source time and the destination rows, plus the requests that
    have been sent to the conversion service and not yet answered. A handler
    runs to completion; a reply is delivered later, by `Deliver`, in whatever
    order the replies arrive. The current date is passed to every handler
    that may start a conversion. */
module Converter {
  import opened CityRegistry
  import opened Rows
  import opened Conversion
  import opened Dispatch

  class WorldTimeConverter {
    var sourceCity: string
    var sourceTime: string
    var destinations: seq<Row>
    var inFlight: seq<Pending>

    /** At least one destination row always exists. */
    ghost predicate Valid()
      reads this
    {
      |destinations| >= 1
    }

    /** The rows and the unanswered requests, as one value. */
    function Snap(): Snapshot
      reads this
    {
      Snapshot(destinations, inFlight)
    }

    /** On mount: no source selection and one empty destination row. */
    constructor ()
      ensures Valid()
      ensures sourceCity == "" && sourceTime == ""
      ensures destinations == [EmptyRow] && inFlight == []
    {
      sourceCity := "";
      sourceTime := "";
      destinations := [EmptyRow];
      inFlight := [];
    }

    /** One call of a conversion, up to the request: clear the row when an
        input is empty, mark it failed when a city is unknown, otherwise send
        the request. */
    method Convert(job: Job, env: Env)
      modifies this
      ensures Snap() == Start(old(Snap()), job, env)
      ensures sourceCity == old(sourceCity) && sourceTime == old(sourceTime)
    {
      match PlanFor(env, job.sourceCity, job.sourceTime, job.destCity) {
        case ClearRow =>
          destinations := SetResult(destinations, job.index, "", "");
        case InvalidCity =>
          destinations := SetResult(destinations, job.index, ErrorText, "");
        case Send(request) =>
          inFlight := inFlight + [Pending(job.index, request)];
      }
    }

    /** One step of the `forEach` over the rows: row i is converted when it is picked. */
    method ConvertRow(rows: seq<Row>, i: int, city: string, time: string, unconvertedOnly: bool, env: Env)
      requires 0 <= i < |rows|
      modifies this
      ensures Snap() == if Selected(rows[i], unconvertedOnly) then Start(old(Snap()), Job(i, city, time, rows[i].city), env)
                        else old(Snap())
      ensures sourceCity == old(sourceCity) && sourceTime == old(sourceTime)
    {
      if Selected(rows[i], unconvertedOnly) {
        Convert(Job(i, city, time, rows[i].city), env);
      }
    }

    /** The `forEach` over the rows: convert each picked row, in order. */
    method ConvertRows(rows: seq<Row>, city: string, time: string, unconvertedOnly: bool, env: Env)
      modifies this
      ensures Snap() == StartAll(old(Snap()), Jobs(rows, city, time, unconvertedOnly), env)
      ensures sourceCity == old(sourceCity) && sourceTime == old(sourceTime)
    {
      ghost var initial := Snap();
      var i := 0;
      while i < |rows|
        invariant 0 <= i <= |rows|
        invariant Snap() == StartAll(initial, Jobs(rows[..i], city, time, unconvertedOnly), env)
        invariant sourceCity == old(sourceCity) && sourceTime == old(sourceTime)
      {
        ghost var before := Snap();
        ConvertRow(rows, i, city, time, unconvertedOnly, env);
        StartAllStep(initial, rows, i, city, time, unconvertedOnly, env, before, Snap());
        i := i + 1;
      }
      assert rows[..|rows|] == rows;
    }

    /** The reply to unanswered request k arrives. */
    method Deliver(k: nat, reply: Reply)
      requires Valid()
      requires k < |inFlight|
      modifies this
      ensures Valid()
      ensures Snap() == Answer(old(Snap()), k, reply)
      ensures sourceCity == old(sourceCity) && sourceTime == old(sourceTime)
    {
      var pending := inFlight[k];
      var display := Finish(reply);
      inFlight := inFlight[..k] + inFlight[k + 1..];
      destinations := SetResult(destinations, pending.index, display.time, display.date);
    }

    /** A new source city: every row's result is cleared, and when a source
        time is set every row that has a city is converted with the new city. */
    method HandleSourceCityChange(value: string, today: string)
      requires Valid()
      modifies this
      ensures Valid()
      ensures sourceCity == value && sourceTime == old(sourceTime)
      ensures var cleared := Snapshot(ClearResults(old(destinations)), old(inFlight));
              Snap() == if value != "" && old(sourceTime) != ""
                        then StartAll(cleared, Jobs(old(destinations), value, old(sourceTime), false), Env(Cities, today))
                        else cleared
    {
      var rows := destinations;
      sourceCity := value;
      destinations := ClearResults(destinations);
      if value != "" && sourceTime != "" {
        ghost var cleared := Snap();
        ConvertRows(rows, value, sourceTime, false, Env(Cities, today));
        StartAllKeepsCities(cleared, Jobs(rows, value, sourceTime, false), Env(Cities, today));
      }
    }

    /** A new source time: every row's result is cleared, and when a source
        city is set every row that has a city is converted at the new time. */
    method HandleSourceTimeChange(value: string, today: string)
      requires Valid()
      modifies this
      ensures Valid()
      ensures sourceTime == value && sourceCity == old(sourceCity)
      ensures var cleared := Snapshot(ClearResults(old(destinations)), old(inFlight));
              Snap() == if old(sourceCity) != "" && value != ""
                        then StartAll(cleared, Jobs(old(destinations), old(sourceCity), value, false), Env(Cities, today))
                        else cleared
    {
      var rows := destinations;
      sourceTime := value;
      destinations := ClearResults(destinations);
      if sourceCity != "" && value != "" {
        ghost var cleared := Snap();
        ConvertRows(rows, sourceCity, value, false, Env(Cities, today));
        StartAllKeepsCities(cleared, Jobs(rows, sourceCity, value, false), Env(Cities, today));
      }
    }

    /** A city chosen for row `index`: the row is replaced by one with that
        city and no result, and when both source fields and the city are set
        that row alone is converted. */
    method HandleDestCityChange(value: string, index: int, today: string)
      requires Valid()
      modifies this
      ensures Valid()
      ensures sourceCity == old(sourceCity) && sourceTime == old(sourceTime)
      ensures var chosen := Snapshot(ChooseCity(old(destinations), index, value), old(inFlight));
              Snap() == if sourceCity != "" && sourceTime != "" && value != ""
                        then Start(chosen, Job(index, sourceCity, sourceTime, value), Env(Cities, today))
                        else chosen
    {
      destinations := ChooseCity(destinations, index, value);
      if sourceCity != "" && sourceTime != "" && value != "" {
        Convert(Job(index, sourceCity, sourceTime, value), Env(Cities, today));
      }
    }

    /** The effect that runs when the number of rows has changed: with both
        source fields set, every row that has a city but no time is converted. */
    method RowCountChanged(today: string)
      requires Valid()
      modifies this
      ensures Valid()
      ensures sourceCity == old(sourceCity) && sourceTime == old(sourceTime)
      ensures Snap() == if sourceCity != "" && sourceTime != ""
                        then StartAll(old(Snap()), Jobs(old(destinations), sourceCity, sourceTime, true), Env(Cities, today))
                        else old(Snap())
    {
      if sourceCity != "" && sourceTime != "" {
        ghost var before := Snap();
        ConvertRows(destinations, sourceCity, sourceTime, true, Env(Cities, today));
        StartAllKeepsCities(before, Jobs(before.rows, sourceCity, sourceTime, true), Env(Cities, today));
      }
    }

    /** "Add Destination": an empty row is appended, then the row-count effect runs. */
    method AddDestination(today: string)
      requires Valid()
      modifies this
      ensures Valid()
      ensures sourceCity == old(sourceCity) && sourceTime == old(sourceTime)
      ensures var added := Snapshot(AddRow(old(destinations)), old(inFlight));
              Snap() == if sourceCity != "" && sourceTime != ""
                        then StartAll(added, Jobs(old(destinations), sourceCity, sourceTime, true), Env(Cities, today))
                        else added
    {
      AddedRowNotConverted(destinations, sourceCity, sourceTime);
      destinations := AddRow(destinations);
      RowCountChanged(today);
    }

    /** The remove button of row `index`, shown only while more than one row
        exists: the row is dropped and, if the count changed, the row-count
        effect runs. */
    method RemoveDestination(index: int, today: string)
      requires Valid()
      requires |destinations| > 1
      modifies this
      ensures Valid()
      ensures sourceCity == old(sourceCity) && sourceTime == old(sourceTime)
      ensures var removed := Snapshot(RemoveRow(old(destinations), index), old(inFlight));
              Snap() == if 0 <= index < |old(destinations)| && sourceCity != "" && sourceTime != ""
                        then StartAll(removed, Jobs(removed.rows, sourceCity, sourceTime, true), Env(Cities, today))
                        else removed
    {
      var count := |destinations|;
      destinations := RemoveRow(destinations, index);
      if |destinations| != count {
        RowCountChanged(today);
      }
    }
  }
}
