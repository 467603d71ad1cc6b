/** Records the score API hands to every page: a user's per-day submissions
    and the admin date records. */
module ScoreData {
  import opened Wrappers

  /** One entry of a user's date-to-items object: a `YYYY-MM-DD` date and
      the comma-joined ids submitted for it. A JSON object is an ordered list
      of distinct keys, so a whole object is a `seq<DayIds>`. */
  datatype DayIds = DayIds(date: string, ids: string)

  /** An admin date record: id 1 is the scoring date, id 2 the cutoff
      ("open") date. */
  datatype AdminTime = AdminTime(id: int, date: string)

  const ScoreDateId := 1
  const CutoffDateId := 2

  /** Index `i` holds the first record with that id. */
  predicate IsFirstWithId(records: seq<AdminTime>, id: int, i: int)
  {
    0 <= i < |records| && records[i].id == id && forall j :: 0 <= j < i ==> records[j].id != id
  }

  /** `records.find((d) => d.id === id)?.date`: the date of the first record
      with that id, or nothing. */
  function FindDate(records: seq<AdminTime>, id: int): (r: Option<string>)
    ensures r.None? <==> forall i :: 0 <= i < |records| ==> records[i].id != id
    ensures r.Some? ==> exists i :: IsFirstWithId(records, id, i) && records[i].date == r.value
  {
    if |records| == 0 then None
    else if records[0].id == id then Some(records[0].date)
    else
      var r := FindDate(records[1..], id);
      assert forall i :: 1 <= i < |records| ==> records[i] == records[1..][i - 1];
      assert r.Some? ==> exists i :: IsFirstWithId(records[1..], id, i) && records[1..][i].date == r.value;
      assert forall i :: IsFirstWithId(records[1..], id, i) ==> IsFirstWithId(records, id, i + 1);
      r
  }
}
