/** The destination rows and the pure transitions the component applies to
    them: each transition returns a new list, as `map`, `filter` and spread
    do on the component's array. */
module Rows {

  /** One destination: the chosen city, the displayed time, and the day annotation. */
  datatype Row = Row(city: string, time: string, date: string)

  const EmptyRow := Row("", "", "")

  /** The cities of the rows, in order. */
  function CitiesOf(rows: seq<Row>): (cs: seq<string>)
    ensures |cs| == |rows|
    ensures forall i :: 0 <= i < |rows| ==> cs[i] == rows[i].city
  {
    if |rows| == 0 then [] else [rows[0].city] + CitiesOf(rows[1..])
  }

  /** Writing a result into row `index`: only that row's time and date change;
      an index outside the list changes nothing. */
  function SetResult(rows: seq<Row>, index: int, time: string, date: string): (r: seq<Row>)
    ensures |r| == |rows|
    ensures forall i :: 0 <= i < |rows| && i != index ==> r[i] == rows[i]
    ensures 0 <= index < |rows| ==> r[index] == Row(rows[index].city, time, date)
    ensures !(0 <= index < |rows|) ==> r == rows
  {
    if |rows| == 0 then []
    else [if index == 0 then rows[0].(time := time, date := date) else rows[0]]
         + SetResult(rows[1..], index - 1, time, date)
  }

  /** Clearing every row's time and date, as both source handlers do first. */
  function ClearResults(rows: seq<Row>): (r: seq<Row>)
    ensures |r| == |rows|
    ensures forall i :: 0 <= i < |rows| ==> r[i] == Row(rows[i].city, "", "")
  {
    if |rows| == 0 then [] else [Row(rows[0].city, "", "")] + ClearResults(rows[1..])
  }

  /** Choosing city `city` for row `index`: the row is replaced by a fresh one
      with that city and no result; an index outside the list changes nothing. */
  function ChooseCity(rows: seq<Row>, index: int, city: string): (r: seq<Row>)
    ensures |r| == |rows|
    ensures forall i :: 0 <= i < |rows| && i != index ==> r[i] == rows[i]
    ensures 0 <= index < |rows| ==> r[index] == Row(city, "", "")
    ensures !(0 <= index < |rows|) ==> r == rows
  {
    if |rows| == 0 then []
    else [if index == 0 then Row(city, "", "") else rows[0]] + ChooseCity(rows[1..], index - 1, city)
  }

  /** Appending an empty row. */
  function AddRow(rows: seq<Row>): (r: seq<Row>)
    ensures |r| == |rows| + 1
    ensures r[..|rows|] == rows && r[|rows|] == EmptyRow
  {
    rows + [EmptyRow]
  }

  /** `rows.filter((_, i) => i !== index)`: row `index` is dropped and the others
      keep their order; an index outside the list changes nothing. */
  function RemoveRow(rows: seq<Row>, index: int): (r: seq<Row>)
    ensures 0 <= index < |rows| ==> r == rows[..index] + rows[index + 1..]
    ensures !(0 <= index < |rows|) ==> r == rows
  {
    if |rows| == 0 then []
    else
      var tail := RemoveRow(rows[1..], index - 1);
      if index == 0 then (assert rows[1..] == rows[..0] + rows[1..]; tail)
      else (assert rows == [rows[0]] + rows[1..]; [rows[0]] + tail)
  }

  /** Writing a result keeps every row's city. */
  lemma {:induction false} SetResultKeepsCities(rows: seq<Row>, index: int, time: string, date: string)
    ensures CitiesOf(SetResult(rows, index, time, date)) == CitiesOf(rows)
  {
    var r := SetResult(rows, index, time, date);
    assert forall i :: 0 <= i < |rows| ==> CitiesOf(r)[i] == CitiesOf(rows)[i];
  }

  /** Clearing keeps every city; clearing twice is clearing once, and a list
      whose results are all empty is left as it is. */
  lemma ClearProperties(rows: seq<Row>)
    ensures CitiesOf(ClearResults(rows)) == CitiesOf(rows)
    ensures ClearResults(ClearResults(rows)) == ClearResults(rows)
    ensures (forall i :: 0 <= i < |rows| ==> rows[i].time == "" && rows[i].date == "") ==> ClearResults(rows) == rows
  {
  }

  /** Removing the row just added gives back the original list. */
  lemma RemoveAddedRow(rows: seq<Row>)
    ensures RemoveRow(AddRow(rows), |rows|) == rows
  {
    assert AddRow(rows)[..|rows|] == rows;
  }

  /** Removal shortens the list by one exactly when the index names a row, so
      removal offered only while more than one row exists never empties it. */
  lemma RemoveLength(rows: seq<Row>, index: int)
    ensures |RemoveRow(rows, index)| == if 0 <= index < |rows| then |rows| - 1 else |rows|
    ensures |rows| > 1 ==> |RemoveRow(rows, index)| >= 1
  {
  }

  /** Choosing a city changes the list of cities at that index only. */
  lemma ChooseCityCities(rows: seq<Row>, index: int, city: string)
    requires 0 <= index < |rows|
    ensures CitiesOf(ChooseCity(rows, index, city)) == CitiesOf(rows)[index := city]
  {
    var before := CitiesOf(rows);
    var after := CitiesOf(ChooseCity(rows, index, city));
    assert |after| == |before[index := city]|;
    forall i | 0 <= i < |rows| ensures after[i] == before[index := city][i] {
    }
  }
}
