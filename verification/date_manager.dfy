/** The admin page for the two dates: the scoring date (id 1) and the
    cutoff date (id 2) up to which scores are counted. */
module DateManager {
  import opened Wrappers
  import opened ScoreData

  /** `dates`: each field is a date, or missing when the fetched records
      had no record for it. */
  datatype AdminDates = AdminDates(scoreDate: Option<string>, openDate: Option<string>)

  /** The form's initial dates: both empty strings. */
  const InitialDates := AdminDates(Some(""), Some(""))

  /** The last record with `id`, if any. */
  function LastDate(records: seq<AdminTime>, id: int): Option<string>
  {
    if |records| == 0 then None
    else if records[|records| - 1].id == id then Some(records[|records| - 1].date)
    else LastDate(records[..|records| - 1], id)
  }

  /** `response.data.reduce(...)` over the records, starting from `{}`:
      a record with id 1 or 2 overwrites its field, other ids are
      ignored. */
  function FoldDates(records: seq<AdminTime>): (r: AdminDates)
    ensures r.scoreDate == LastDate(records, ScoreDateId)
    ensures r.openDate == LastDate(records, CutoffDateId)
  {
    if |records| == 0 then AdminDates(None, None)
    else
      var acc := FoldDates(records[..|records| - 1]);
      var item := records[|records| - 1];
      var acc1 := if item.id == ScoreDateId then acc.(scoreDate := Some(item.date)) else acc;
      if item.id == CutoffDateId then acc1.(openDate := Some(item.date)) else acc1
  }

  /** Records with other ids do not affect the dates. */
  lemma {:induction false} FoldIgnoresOtherIds(records: seq<AdminTime>, other: AdminTime)
    requires other.id != ScoreDateId && other.id != CutoffDateId
    ensures FoldDates(records + [other]) == FoldDates(records)
  {
    assert (records + [other])[..|records|] == records;
  }

  /** The admin page and the leaderboard agree on a cutoff whenever the
      records hold exactly one record with id 2. */
  lemma {:induction false} SingleCutoffAgrees(records: seq<AdminTime>, k: int)
    requires 0 <= k < |records| && records[k].id == CutoffDateId
    requires forall j :: 0 <= j < |records| && j != k ==> records[j].id != CutoffDateId
    ensures FoldDates(records).openDate == FindDate(records, CutoffDateId) == Some(records[k].date)
  {
    LastDateUnique(records, CutoffDateId, k);
    assert IsFirstWithId(records, CutoffDateId, k);
  }

  lemma {:induction false} LastDateUnique(records: seq<AdminTime>, id: int, k: int)
    requires 0 <= k < |records| && records[k].id == id
    requires forall j :: 0 <= j < |records| && j != k ==> records[j].id != id
    ensures LastDate(records, id) == Some(records[k].date)
  {
    var n := |records| - 1;
    if k < n {
      var p := records[..n];
      assert p[k] == records[k];
      assert forall j :: 0 <= j < |p| && j != k ==> p[j] == records[j];
      LastDateUnique(p, id, k);
    }
  }

  /** The page: the dates, the loading flag and the error message. */
  datatype State = State(dates: AdminDates, loading: bool, error: Option<string>)

  const InitialState := State(InitialDates, true, None)

  const LoadErrorMessage := "Failed to load dates."
  const UpdateErrorMessage := "Failed to update the date."

  /** The answer to the initial fetch: the records, or a failure. */
  function OnFetch(s: State, reply: Option<seq<AdminTime>>): (r: State)
    ensures !r.loading
    ensures reply.Some? ==> r.dates == FoldDates(reply.value) && r.error == s.error
    ensures reply.None? ==> r.dates == s.dates && r.error == Some(LoadErrorMessage)
  {
    match reply
    case Some(records) => s.(dates := FoldDates(records), loading := false)
    case None => s.(error := Some(LoadErrorMessage), loading := false)
  }

  /** The server's answer to `updateAdTime`: its `new_date` (possibly
      missing), or a failure. */
  datatype UpdateReply = Updated(newDate: Option<string>) | UpdateFailed

  /** `updateDate(id, newDate)`: a successful answer sets the field of
      that id to the date the server returns; any other id changes
      nothing; a failure sets the error. */
  function UpdateDate(s: State, id: int, reply: UpdateReply): (r: State)
    ensures r.loading == s.loading
    ensures reply.UpdateFailed? ==> r.dates == s.dates && r.error == Some(UpdateErrorMessage)
    ensures reply.Updated? ==> r.error == s.error
    ensures reply.Updated? && id == ScoreDateId ==> r.dates == s.dates.(scoreDate := reply.newDate)
    ensures reply.Updated? && id == CutoffDateId ==> r.dates == s.dates.(openDate := reply.newDate)
    ensures id != ScoreDateId && id != CutoffDateId ==> r.dates == s.dates
  {
    match reply
    case UpdateFailed => s.(error := Some(UpdateErrorMessage))
    case Updated(d) =>
      if id == ScoreDateId then s.(dates := s.dates.(scoreDate := d))
      else if id == CutoffDateId then s.(dates := s.dates.(openDate := d))
      else s
  }

  datatype Screen =
    | Loading
    | ErrorPage(message: string)
    | Form(scoreDate: Option<string>, openDate: Option<string>, inlineError: Option<string>)

  /** The page as written: loading notice, then the error in place of the
      form, then the form with the error line under it. */
  function Render(s: State): (v: Screen)
    ensures v == Loading <==> s.loading
    ensures v.ErrorPage? <==> !s.loading && s.error.Some?
    ensures v.Form? ==> v.scoreDate == s.dates.scoreDate && v.openDate == s.dates.openDate
  {
    if s.loading then Loading
    else if s.error.Some? then ErrorPage(s.error.value)
    else Form(s.dates.scoreDate, s.dates.openDate, s.error)
  }

  /** The error line under the form can never appear: an error replaces
      the whole form first. */
  lemma InlineErrorNeverShown(s: State)
    ensures Render(s).Form? ==> Render(s).inlineError.None?
  {
  }

  /** Once an update has failed, no later answer brings the form back. */
  lemma {:induction false} ErrorIsSticky(s: State, ids: seq<int>, replies: seq<UpdateReply>)
    requires !s.loading && s.error.Some?
    requires |ids| == |replies|
    ensures Render(UpdateAll(s, ids, replies)).ErrorPage?
    decreases |ids|
  {
    if |ids| > 0 {
      ErrorIsSticky(UpdateDate(s, ids[0], replies[0]), ids[1..], replies[1..]);
    }
  }

  /** A sequence of `updateDate` answers applied in order. */
  function UpdateAll(s: State, ids: seq<int>, replies: seq<UpdateReply>): (r: State)
    requires |ids| == |replies|
    ensures r.loading == s.loading
    decreases |ids|
  {
    if |ids| == 0 then s else UpdateAll(UpdateDate(s, ids[0], replies[0]), ids[1..], replies[1..])
  }
}
