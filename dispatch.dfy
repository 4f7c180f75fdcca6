/** Which rows get a conversion, and what starting and answering conversions
    does to the rows and to the requests still awaiting a reply. A conversion
    call is split at its first suspension point, the request to the service:
    the part before it (guard, lookup) acts at once, the reply is applied
    later, to the row index captured when the call was made. The two later
    suspensions only read the reply's body, so the reply is taken as one step. */
module Dispatch {
  import opened CityRegistry
  import opened Rows
  import opened Conversion

  /** One call of a conversion: the row index and the three inputs. */
  datatype Job = Job(index: int, sourceCity: string, sourceTime: string, destCity: string)

  /** A request sent and not yet answered, with the row index it will write to. */
  datatype Pending = Pending(index: int, request: ApiRequest)

  /** The rows together with the requests awaiting a reply. */
  datatype Snapshot = Snapshot(rows: seq<Row>, inFlight: seq<Pending>)

  /** Starting one conversion: clear the row, mark it as failed, or send. Only
      the job's own row can change, and only a sending conversion queues. */
  function Start(s: Snapshot, job: Job, env: Env): (t: Snapshot)
    ensures |t.rows| == |s.rows|
    ensures forall i :: 0 <= i < |s.rows| && i != job.index ==> t.rows[i] == s.rows[i]
    ensures |s.inFlight| <= |t.inFlight| <= |s.inFlight| + 1
  {
    match PlanFor(env, job.sourceCity, job.sourceTime, job.destCity)
    case ClearRow => Snapshot(SetResult(s.rows, job.index, "", ""), s.inFlight)
    case InvalidCity => Snapshot(SetResult(s.rows, job.index, ErrorText, ""), s.inFlight)
    case Send(request) => Snapshot(s.rows, s.inFlight + [Pending(job.index, request)])
  }

  /** What a started conversion does to its own row and to the pending list,
      case by case: an empty input clears the row, an unknown city writes the
      error text, and a request leaves the rows alone and queues one entry for
      the row. */
  lemma StartCases(s: Snapshot, job: Job, env: Env)
    ensures var plan := PlanFor(env, job.sourceCity, job.sourceTime, job.destCity);
            var t := Start(s, job, env);
            (plan.ClearRow? ==>
               t.inFlight == s.inFlight &&
               (0 <= job.index < |s.rows| ==> t.rows[job.index] == Row(s.rows[job.index].city, "", ""))) &&
            (plan.InvalidCity? ==>
               t.inFlight == s.inFlight &&
               (0 <= job.index < |s.rows| ==> t.rows[job.index] == Row(s.rows[job.index].city, ErrorText, ""))) &&
            (plan.Send? ==>
               t.rows == s.rows && |t.inFlight| == |s.inFlight| + 1 &&
               t.inFlight[..|s.inFlight|] == s.inFlight && t.inFlight[|s.inFlight|].index == job.index)
  {
  }

  /** Starting a sequence of conversions one after the other: the row count is
      kept, the requests already pending stay queued in front, and each
      conversion queues at most one request. */
  function StartAll(s: Snapshot, jobs: seq<Job>, env: Env): (t: Snapshot)
    ensures |t.rows| == |s.rows|
    ensures |s.inFlight| <= |t.inFlight| <= |s.inFlight| + |jobs|
    ensures t.inFlight[..|s.inFlight|] == s.inFlight
  {
    if |jobs| == 0 then s
    else Start(StartAll(s, jobs[..|jobs| - 1], env), jobs[|jobs| - 1], env)
  }

  /** The reply to request k arrives: it leaves the pending list and its
      display is written to the row index it captured. */
  function Answer(s: Snapshot, k: nat, reply: Reply): (t: Snapshot)
    requires k < |s.inFlight|
    ensures t.inFlight == s.inFlight[..k] + s.inFlight[k + 1..]
    ensures |t.rows| == |s.rows|
    ensures forall i :: 0 <= i < |s.rows| && i != s.inFlight[k].index ==> t.rows[i] == s.rows[i]
    ensures var i := s.inFlight[k].index;
            0 <= i < |s.rows| ==> t.rows[i] == Row(s.rows[i].city, Finish(reply).time, Finish(reply).date)
  {
    var d := Finish(reply);
    Snapshot(SetResult(s.rows, s.inFlight[k].index, d.time, d.date), s.inFlight[..k] + s.inFlight[k + 1..])
  }

  /** One complete conversion, started and (when a request was sent) answered
      before anything else happens, writes exactly its outcome into its row. */
  lemma StartThenAnswer(s: Snapshot, job: Job, env: Env, reply: Reply)
    ensures var t := Start(s, job, env);
            var done := if |t.inFlight| > |s.inFlight| then Answer(t, |s.inFlight|, reply) else t;
            var d := Outcome(env, job.sourceCity, job.sourceTime, job.destCity, reply);
            done == Snapshot(SetResult(s.rows, job.index, d.time, d.date), s.inFlight)
  {
    var t := Start(s, job, env);
    if |t.inFlight| > |s.inFlight| {
      assert t.inFlight[..|s.inFlight|] == s.inFlight;
    }
  }

  /** Whether a row is picked: it has a city and, for the backfill after a
      change in the number of rows, no displayed time. */
  predicate Selected(row: Row, unconvertedOnly: bool): (picked: bool)
    ensures picked ==> row.city != ""
    ensures picked && unconvertedOnly ==> row.time == ""
    ensures row.city != "" && row.time == "" ==> picked
  {
    row.city != "" && (!unconvertedOnly || row.time == "")
  }

  /** The conversions a `forEach` over the rows issues, in row order. */
  function Jobs(rows: seq<Row>, sourceCity: string, sourceTime: string, unconvertedOnly: bool): (js: seq<Job>)
    ensures forall k :: 0 <= k < |js| ==>
              0 <= js[k].index < |rows| && Selected(rows[js[k].index], unconvertedOnly) &&
              js[k] == Job(js[k].index, sourceCity, sourceTime, rows[js[k].index].city)
    ensures forall k, l :: 0 <= k < l < |js| ==> js[k].index < js[l].index
  {
    if |rows| == 0 then []
    else
      var n := |rows| - 1;
      var prefix := Jobs(rows[..n], sourceCity, sourceTime, unconvertedOnly);
      assert forall i :: 0 <= i < n ==> rows[..n][i] == rows[i];
      prefix + if Selected(rows[n], unconvertedOnly) then [Job(n, sourceCity, sourceTime, rows[n].city)] else []
  }

  /** The conversions of one more row: those of the rows before it, then its
      own if it is picked. */
  lemma JobsStep(rows: seq<Row>, i: int, sourceCity: string, sourceTime: string, unconvertedOnly: bool)
    requires 0 <= i < |rows|
    ensures Jobs(rows[..i + 1], sourceCity, sourceTime, unconvertedOnly) ==
            Jobs(rows[..i], sourceCity, sourceTime, unconvertedOnly) +
            if Selected(rows[i], unconvertedOnly) then [Job(i, sourceCity, sourceTime, rows[i].city)] else []
  {
    assert rows[..i + 1][..i] == rows[..i];
  }

  /** Starting one more conversion after a run of them. */
  lemma StartAllSnoc(s: Snapshot, jobs: seq<Job>, job: Job, env: Env)
    ensures StartAll(s, jobs + [job], env) == Start(StartAll(s, jobs, env), job, env)
  {
    assert (jobs + [job])[..|jobs|] == jobs;
  }

  /** Visiting one more row: starting the conversions of the rows before it
      and then, if it is picked, its own, is starting the conversions of the
      longer prefix. */
  lemma StartAllStep(s: Snapshot, rows: seq<Row>, i: int, sourceCity: string, sourceTime: string,
                     unconvertedOnly: bool, env: Env, before: Snapshot, after: Snapshot)
    requires 0 <= i < |rows|
    requires before == StartAll(s, Jobs(rows[..i], sourceCity, sourceTime, unconvertedOnly), env)
    requires after == if Selected(rows[i], unconvertedOnly)
                      then Start(before, Job(i, sourceCity, sourceTime, rows[i].city), env)
                      else before
    ensures after == StartAll(s, Jobs(rows[..i + 1], sourceCity, sourceTime, unconvertedOnly), env)
  {
    JobsStep(rows, i, sourceCity, sourceTime, unconvertedOnly);
    var done := Jobs(rows[..i], sourceCity, sourceTime, unconvertedOnly);
    if Selected(rows[i], unconvertedOnly) {
      StartAllSnoc(s, done, Job(i, sourceCity, sourceTime, rows[i].city), env);
    } else {
      assert done + [] == done;
    }
  }

  /** Every picked row gets a conversion. */
  lemma {:induction false} JobsCover(rows: seq<Row>, sourceCity: string, sourceTime: string, unconvertedOnly: bool, i: int)
    requires 0 <= i < |rows| && Selected(rows[i], unconvertedOnly)
    ensures exists k :: 0 <= k < |Jobs(rows, sourceCity, sourceTime, unconvertedOnly)| &&
                        Jobs(rows, sourceCity, sourceTime, unconvertedOnly)[k].index == i
  {
    var n := |rows| - 1;
    var js := Jobs(rows, sourceCity, sourceTime, unconvertedOnly);
    var prefix := Jobs(rows[..n], sourceCity, sourceTime, unconvertedOnly);
    assert js[..|prefix|] == prefix;
    if i < n {
      JobsCover(rows[..n], sourceCity, sourceTime, unconvertedOnly, i);
      var k :| 0 <= k < |prefix| && prefix[k].index == i;
      assert js[k].index == i;
    } else {
      assert js[|prefix|].index == i;
    }
  }

  /** The request a conversion sends when it passes the guard and the lookups. */
  function Sent(j: Job, env: Env): Pending
  {
    var p := PlanFor(env, j.sourceCity, j.sourceTime, j.destCity);
    Pending(j.index, if p.Send? then p.request else ApiRequest("", "", ""))
  }

  /** Whether a conversion passes the guard and the lookups. */
  predicate Sends(j: Job, env: Env)
  {
    PlanFor(env, j.sourceCity, j.sourceTime, j.destCity).Send?
  }

  /** A conversion that sends leaves the rows alone and queues its request. */
  lemma StartSends(before: Snapshot, job: Job, env: Env)
    requires Sends(job, env)
    ensures Start(before, job, env) == Snapshot(before.rows, before.inFlight + [Sent(job, env)])
  {
  }

  /** The requests of a sequence of conversions that all send, in order. */
  function SentAll(jobs: seq<Job>, env: Env): seq<Pending>
  {
    if |jobs| == 0 then []
    else SentAll(jobs[..|jobs| - 1], env) + [Sent(jobs[|jobs| - 1], env)]
  }

  /** One request per conversion, request k for conversion k and its row. */
  lemma {:induction false} SentAllAt(jobs: seq<Job>, env: Env)
    ensures |SentAll(jobs, env)| == |jobs|
    ensures forall k :: 0 <= k < |jobs| ==> SentAll(jobs, env)[k] == Sent(jobs[k], env)
    ensures forall k :: 0 <= k < |jobs| ==> SentAll(jobs, env)[k].index == jobs[k].index
  {
    if |jobs| > 0 {
      var n := |jobs| - 1;
      SentAllAt(jobs[..n], env);
    }
  }

  /** When every conversion sends a request, starting them leaves the rows as
      they were and queues one request per conversion, in order, each for the
      row index of its conversion. */
  lemma {:induction false} StartAllSends(s: Snapshot, jobs: seq<Job>, env: Env)
    requires forall k :: 0 <= k < |jobs| ==> Sends(jobs[k], env)
    ensures StartAll(s, jobs, env) == Snapshot(s.rows, s.inFlight + SentAll(jobs, env))
  {
    if |jobs| > 0 {
      var n := |jobs| - 1;
      var prefix := jobs[..n];
      forall k | 0 <= k < n ensures Sends(prefix[k], env) {
        assert prefix[k] == jobs[k];
      }
      StartAllSends(s, prefix, env);
      var before := StartAll(s, prefix, env);
      StartSends(before, jobs[n], env);
      var p := Sent(jobs[n], env);
      assert SentAll(jobs, env) == SentAll(prefix, env) + [p];
      assert s.inFlight + SentAll(prefix, env) + [p] == s.inFlight + (SentAll(prefix, env) + [p]);
    }
  }

  /** With both source inputs set and every city in the table, each picked
      row sends its request: the rows stay as they are and one request per
      picked row is queued, in row order. */
  lemma KnownCitiesSend(s: Snapshot, rows: seq<Row>, sourceCity: string, sourceTime: string,
                        unconvertedOnly: bool, env: Env)
    requires sourceCity != "" && sourceTime != "" && Known(env.cities, sourceCity)
    requires forall i :: 0 <= i < |rows| && rows[i].city != "" ==> Known(env.cities, rows[i].city)
    ensures var jobs := Jobs(rows, sourceCity, sourceTime, unconvertedOnly);
            StartAll(s, jobs, env) == Snapshot(s.rows, s.inFlight + SentAll(jobs, env))
  {
    var jobs := Jobs(rows, sourceCity, sourceTime, unconvertedOnly);
    forall k | 0 <= k < |jobs| ensures Sends(jobs[k], env) {
      var j := jobs[k];
      assert j.destCity == rows[j.index].city && j.destCity != "";
      var p := PlanFor(env, j.sourceCity, j.sourceTime, j.destCity);
      assert !p.ClearRow? && !p.InvalidCity?;
    }
    StartAllSends(s, jobs, env);
  }

  /** Starting one conversion keeps the number of rows and their cities. */
  lemma StartKeepsCities(s: Snapshot, job: Job, env: Env)
    ensures CitiesOf(Start(s, job, env).rows) == CitiesOf(s.rows)
  {
    SetResultKeepsCities(s.rows, job.index, "", "");
    SetResultKeepsCities(s.rows, job.index, ErrorText, "");
  }

  /** Starting conversions never changes the number of rows or their cities. */
  lemma {:induction false} StartAllKeepsCities(s: Snapshot, jobs: seq<Job>, env: Env)
    ensures CitiesOf(StartAll(s, jobs, env).rows) == CitiesOf(s.rows)
  {
    if |jobs| > 0 {
      var n := |jobs| - 1;
      StartAllKeepsCities(s, jobs[..n], env);
      StartKeepsCities(StartAll(s, jobs[..n], env), jobs[n], env);
    }
  }

  /** The backfill after adding a row picks the same rows as before the
      addition: the new row, having no city, is never converted. */
  lemma AddedRowNotConverted(rows: seq<Row>, sourceCity: string, sourceTime: string)
    ensures Jobs(AddRow(rows), sourceCity, sourceTime, true) == Jobs(rows, sourceCity, sourceTime, true)
  {
    assert AddRow(rows)[..|rows|] == rows;
  }

  /** On rows whose results were just cleared, the backfill picks exactly the
      rows the source handlers pick: every row with a city. */
  lemma {:induction false} BackfillAfterClear(rows: seq<Row>, sourceCity: string, sourceTime: string)
    ensures Jobs(ClearResults(rows), sourceCity, sourceTime, true) == Jobs(rows, sourceCity, sourceTime, false)
  {
    if |rows| > 0 {
      var n := |rows| - 1;
      assert ClearResults(rows[..n]) == ClearResults(rows)[..n];
      BackfillAfterClear(rows[..n], sourceCity, sourceTime);
    }
  }
}
