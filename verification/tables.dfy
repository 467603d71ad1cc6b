/** The catalogue database behind the score API: the `items`, `details`,
    `scores`, `users` and `user_gacha` tables, and the `DBManager`
    operations that refresh, read, score and clear them. */
module Tables {
  import opened Wrappers
  import Seqs
  import Catalog
  import opened Scrape

  datatype ItemRow = ItemRow(id: string, img: string, name: string, dtype: int)
  datatype DetailRow = DetailRow(id: string, key: string, value: int)
  datatype UserRow = UserRow(uid: string, name: string, psw: string, icon: string)
  datatype GachaRow = GachaRow(uid: string, itemId: string, date: string)

  /** The five tables. `scores` is keyed by its primary key `item_id`; a
      missing score is SQL NULL. */
  datatype Db = Db(items: seq<ItemRow>, details: seq<DetailRow>, scores: map<string, Option<int>>,
                   users: seq<UserRow>, gacha: seq<GachaRow>)

  datatype DbError =
    | FetchFailed(error: ScrapeError)  // the scrape raised before the database was opened
    | IntegrityError                   // two records with one id: the `items` primary key

  function ItemRowOf(rec: Record): ItemRow
  {
    ItemRow(rec.id, rec.img, rec.name, rec.dtype)
  }

  function RecIds(recs: seq<Record>): (r: seq<string>)
    ensures |r| == |recs| && forall i :: 0 <= i < |recs| ==> r[i] == recs[i].id
  {
    seq(|recs|, i requires 0 <= i < |recs| => recs[i].id)
  }

  /** The `details` rows of a dict under `id`, in the dict's order. */
  function RowsFor(id: string, d: seq<Detail>): (r: seq<DetailRow>)
    ensures |r| == |d|
    ensures forall j :: 0 <= j < |d| ==> r[j] == DetailRow(id, d[j].key, d[j].value)
  {
    seq(|d|, j requires 0 <= j < |d| => DetailRow(id, d[j].key, d[j].value))
  }

  /** The `details` rows the insert loop writes for `recs`. */
  function AllDetailRows(recs: seq<Record>): (r: seq<DetailRow>)
    ensures forall j :: 0 <= j < |r| ==> r[j].id in RecIds(recs)
  {
    if |recs| == 0 then []
    else
      var p := recs[..|recs| - 1];
      var x := recs[|recs| - 1];
      var r := AllDetailRows(p) + RowsFor(x.id, x.details);
      assert forall j :: 0 <= j < |RecIds(p)| ==> RecIds(p)[j] == RecIds(recs)[j];
      assert RecIds(recs)[|recs| - 1] == x.id;
      r
  }

  /** `INSERT OR IGNORE INTO scores` with 0 for each record: existing
      scores stay, new ids get 0. */
  function InsertScores(scores: map<string, Option<int>>, recs: seq<Record>): (r: map<string, Option<int>>)
    ensures forall id :: id in r <==> id in scores || id in RecIds(recs)
    ensures forall id :: id in scores ==> r[id] == scores[id]
    ensures forall id :: id in r && id !in scores ==> r[id] == Some(0)
  {
    if |recs| == 0 then scores
    else
      var p := recs[..|recs| - 1];
      var x := recs[|recs| - 1];
      var m := InsertScores(scores, p);
      assert RecIds(recs) == RecIds(p) + [x.id];
      if x.id in m then m else m[x.id := Some(0)]
  }

  /** `update_data`, given what the two fetches produced: a fetch that
      raised leaves the database alone, and so does a repeated id, whose
      insert fails before the commit. Otherwise `items` and `details` are
      replaced wholesale by the records, in order, scores are added for the
      new ids only, and the other tables are untouched. */
  function UpdateData(db: Db, data1: Result<seq<Record>, ScrapeError>, data2: Result<seq<Record>, ScrapeError>): (r: Result<Db, DbError>)
    ensures data1.Err? ==> r == Err(FetchFailed(data1.error))
    ensures data1.Ok? && data2.Err? ==> r == Err(FetchFailed(data2.error))
    ensures data1.Ok? && data2.Ok? ==> (r.Ok? <==> Seqs.Distinct(RecIds(data1.value + data2.value)))
    ensures r.Ok? ==>
      var recs := data1.value + data2.value;
      && |r.value.items| == |recs|
      && (forall i :: 0 <= i < |recs| ==> r.value.items[i] == ItemRowOf(recs[i]))
      && r.value.details == AllDetailRows(recs)
      && r.value.users == db.users && r.value.gacha == db.gacha
    ensures r.Ok? ==> forall id :: id in r.value.scores <==> id in db.scores || id in RecIds(data1.value + data2.value)
    ensures r.Ok? ==> forall id :: id in db.scores ==> r.value.scores[id] == db.scores[id]
    ensures r.Ok? ==> forall id :: id in r.value.scores && id !in db.scores ==> r.value.scores[id] == Some(0)
  {
    if data1.Err? then Err(FetchFailed(data1.error))
    else if data2.Err? then Err(FetchFailed(data2.error))
    else
      var recs := data1.value + data2.value;
      if !Seqs.Distinct(RecIds(recs)) then Err(IntegrityError)
      else
        Ok(Db(seq(|recs|, i requires 0 <= i < |recs| => ItemRowOf(recs[i])), AllDetailRows(recs),
              InsertScores(db.scores, recs), db.users, db.gacha))
  }

  /** `update_data` end to end: the first page's records carry dtype 0 and
      come before the second page's, which carry dtype 1. */
  function Refresh(db: Db, page1: Page, page2: Page): (r: Result<Db, DbError>)
    ensures r.Ok? ==> FetchData(page1, 0).Ok? && FetchData(page2, 1).Ok?
    ensures r.Ok? ==> forall i :: 0 <= i < |r.value.items| ==>
      r.value.items[i].dtype == if i < |FetchData(page1, 0).value| then 0 else 1
  {
    UpdateData(db, FetchData(page1, 0), FetchData(page2, 1))
  }

  /** The details of one id, read back into a dict: its rows in order, the
      last row for a key winning. */
  function DetailsOf(rows: seq<DetailRow>, id: string): map<string, int>
  {
    if |rows| == 0 then map[]
    else
      var m := DetailsOf(rows[..|rows| - 1], id);
      var x := rows[|rows| - 1];
      if x.id == id then m[x.key := x.value] else m
  }

  /** `details_dict`: the rows grouped by id. An id is present exactly
      when some row has it. */
  function GroupDetails(rows: seq<DetailRow>): (r: map<string, map<string, int>>)
    ensures forall id :: id in r <==> exists j :: 0 <= j < |rows| && rows[j].id == id
    ensures forall id :: id in r ==> r[id] == DetailsOf(rows, id)
  {
    if |rows| == 0 then map[]
    else
      var p := rows[..|rows| - 1];
      var x := rows[|rows| - 1];
      var g := GroupDetails(p);
      assert forall j :: 0 <= j < |p| ==> p[j] == rows[j];
      var cur := if x.id in g then g[x.id] else map[];
      assert cur == DetailsOf(p, x.id) by {
        if x.id !in g {
          DetailsOfAbsent(p, x.id);
        }
      }
      g[x.id := cur[x.key := x.value]]
  }

  /** An id without rows has no details. */
  lemma {:induction false} DetailsOfAbsent(rows: seq<DetailRow>, id: string)
    requires forall j :: 0 <= j < |rows| ==> rows[j].id != id
    ensures DetailsOf(rows, id) == map[]
  {
    if |rows| > 0 {
      DetailsOfAbsent(rows[..|rows| - 1], id);
    }
  }

  /** `fetch_items`: one catalogue item per `items` row, in table order,
      with the details of its id, or `{}` when it has none. */
  function FetchItems(db: Db): (r: seq<Catalog.Item>)
    ensures |r| == |db.items|
    ensures forall i :: 0 <= i < |r| ==>
      && r[i].id == db.items[i].id && r[i].img == db.items[i].img
      && r[i].name == db.items[i].name && r[i].dtype == db.items[i].dtype
      && r[i].details == DetailsOf(db.details, db.items[i].id)
  {
    var g := GroupDetails(db.details);
    assert forall id :: id !in g ==> DetailsOf(db.details, id) == map[] by {
      forall id | id !in g
        ensures DetailsOf(db.details, id) == map[]
      {
        DetailsOfAbsent(db.details, id);
      }
    }
    seq(|db.items|, i requires 0 <= i < |db.items| =>
      var row := db.items[i];
      Catalog.Item(row.id, row.img, row.name, if row.id in g then g[row.id] else map[], row.dtype))
  }

  /** The rows of one dict read back give that dict. */
  lemma {:induction false} DetailsOfRowsFor(id: string, d: seq<Detail>)
    ensures DetailsOf(RowsFor(id, d), id) == ToMap(d)
  {
    if |d| > 0 {
      var rows := RowsFor(id, d);
      assert rows[..|d| - 1] == RowsFor(id, d[..|d| - 1]);
      DetailsOfRowsFor(id, d[..|d| - 1]);
    }
  }

  /** Rows of other ids after the rows of `id` change nothing. */
  lemma {:induction false} DetailsOfAppendOther(a: seq<DetailRow>, b: seq<DetailRow>, id: string)
    requires forall j :: 0 <= j < |b| ==> b[j].id != id
    ensures DetailsOf(a + b, id) == DetailsOf(a, id)
  {
    if |b| == 0 {
      assert a + b == a;
    } else {
      assert (a + b)[..|a + b| - 1] == a + b[..|b| - 1];
      DetailsOfAppendOther(a, b[..|b| - 1], id);
    }
  }

  /** Rows of other ids before the rows of `id` change nothing. */
  lemma {:induction false} DetailsOfSkipPrefix(a: seq<DetailRow>, b: seq<DetailRow>, id: string)
    requires forall j :: 0 <= j < |a| ==> a[j].id != id
    ensures DetailsOf(a + b, id) == DetailsOf(b, id)
  {
    if |b| == 0 {
      assert a + b == a;
      DetailsOfAbsent(a, id);
    } else {
      assert (a + b)[..|a + b| - 1] == a + b[..|b| - 1];
      DetailsOfSkipPrefix(a, b[..|b| - 1], id);
    }
  }

  /** With distinct ids, the details rows of a record are exactly its
      own. */
  lemma {:induction false} DetailsOfAllRows(recs: seq<Record>, i: nat)
    requires Seqs.Distinct(RecIds(recs))
    requires i < |recs|
    ensures DetailsOf(AllDetailRows(recs), recs[i].id) == ToMap(recs[i].details)
  {
    var n := |recs| - 1;
    var p := recs[..n];
    var x := recs[n];
    var own := RowsFor(x.id, x.details);
    assert AllDetailRows(recs) == AllDetailRows(p) + own;
    assert forall j :: 0 <= j < |p| ==> RecIds(p)[j] == RecIds(recs)[j];
    if i == n {
      assert forall j :: 0 <= j < |AllDetailRows(p)| ==> AllDetailRows(p)[j].id != x.id by {
        forall j | 0 <= j < |AllDetailRows(p)|
          ensures AllDetailRows(p)[j].id != x.id
        {
          var k :| 0 <= k < |p| && RecIds(p)[k] == AllDetailRows(p)[j].id;
          assert RecIds(recs)[k] != RecIds(recs)[n];
        }
      }
      DetailsOfSkipPrefix(AllDetailRows(p), own, x.id);
      DetailsOfRowsFor(x.id, x.details);
    } else {
      assert RecIds(recs)[i] != RecIds(recs)[n];
      DetailsOfAppendOther(AllDetailRows(p), own, recs[i].id);
      assert Seqs.Distinct(RecIds(p));
      assert p[i] == recs[i];
      DetailsOfAllRows(p, i);
    }
  }

  /** Reading the catalogue right after a successful refresh gives back
      the scraped records, in order, each with its own details. */
  lemma FetchAfterUpdate(db: Db, data1: Result<seq<Record>, ScrapeError>, data2: Result<seq<Record>, ScrapeError>)
    requires UpdateData(db, data1, data2).Ok?
    ensures var recs := data1.value + data2.value;
      FetchItems(UpdateData(db, data1, data2).value) == seq(|recs|, i requires 0 <= i < |recs| => ToItem(recs[i]))
  {
    var recs := data1.value + data2.value;
    var db' := UpdateData(db, data1, data2).value;
    forall i | 0 <= i < |recs|
      ensures FetchItems(db')[i] == ToItem(recs[i])
    {
      DetailsOfAllRows(recs, i);
    }
  }

  /** The database and `output.json` agree: whenever the refresh succeeds,
      the script writes the same records and `fetch_items` returns them as
      the script's catalogue items. */
  lemma DatabaseMatchesOutput(db: Db, page1: Page, page2: Page)
    requires Refresh(db, page1, page2).Ok?
    ensures RawOutput(page1, page2).Ok?
    ensures var out := RawOutput(page1, page2).value;
      FetchItems(Refresh(db, page1, page2).value) == seq(|out|, i requires 0 <= i < |out| => ToItem(out[i]))
  {
    FetchAfterUpdate(db, FetchData(page1, 0), FetchData(page2, 1));
  }

  /** A page with a ".png" row after a ".jpg" row, scraped as written,
      repeats the id and makes the refresh fail. */
  lemma StaleIdBreaksRefresh(db: Db)
    ensures var rows := [Row(["ca1"], Some("https://img/a.jpg"), "A"), Row(["ca1"], Some("https://img/b.png"), "B")];
      Refresh(db, Page(200, Some(rows)), Page(200, Some([]))) == Err(IntegrityError)
  {
    var rows := [Row(["ca1"], Some("https://img/a.jpg"), "A"), Row(["ca1"], Some("https://img/b.png"), "B")];
    PngHasNoId();
    StaleIdReused(rows[0], rows[1], 0);
    assert FetchData(Page(200, Some([])), 1) == Ok([]);
    RepeatedIdFails(db, ParseRows(rows, 0).value, 0, 1);
  }

  /** The same page scraped with the corrected loop gives one record, and
      the refresh goes through with it. */
  lemma StaleIdDroppedRefresh(db: Db)
    ensures var rows := [Row(["ca1"], Some("https://img/a.jpg"), "A"), Row(["ca1"], Some("https://img/b.png"), "B")];
      var r := UpdateData(db, FetchDataCorrected(Page(200, Some(rows)), 0), FetchDataCorrected(Page(200, Some([])), 1));
      r.Ok? && |r.value.items| == 1 && r.value.items[0].id == "a"
  {
    var rows := [Row(["ca1"], Some("https://img/a.jpg"), "A"), Row(["ca1"], Some("https://img/b.png"), "B")];
    PngHasNoId();
    StaleIdDropped(rows[0], rows[1], 0);
    var recs := ParseRowsCorrected(rows, 0).value;
    assert FetchDataCorrected(Page(200, Some([])), 1) == Ok([]);
    assert recs + [] == recs;
    assert RecIds(recs) == [recs[0].id];
  }

  /** Two records under one id make `update_data` fail. */
  lemma RepeatedIdFails(db: Db, recs: seq<Record>, i: int, j: int)
    requires 0 <= i < j < |recs| && recs[i].id == recs[j].id
    ensures UpdateData(db, Ok(recs), Ok([])) == Err(IntegrityError)
  {
    assert recs + [] == recs;
    assert RecIds(recs)[i] == RecIds(recs)[j];
  }

  /** `UPDATE scores SET item_score = NULL WHERE item_score = ?`. */
  function ClearScore(scores: map<string, Option<int>>, s: int): (r: map<string, Option<int>>)
    ensures r.Keys == scores.Keys
    ensures forall k :: k in r ==> r[k] == if scores[k] == Some(s) then None else scores[k]
  {
    map k | k in scores :: if scores[k] == Some(s) then None else scores[k]
  }

  /** `executemany("UPDATE scores SET item_score = ? WHERE item_id = ?")`:
      a listed id that has a score row gets the score; other ids match no
      row. */
  function SetScores(scores: map<string, Option<int>>, ids: seq<string>, s: int): (r: map<string, Option<int>>)
    ensures r.Keys == scores.Keys
    ensures forall k :: k in r ==> r[k] == if k in ids then Some(s) else scores[k]
  {
    if |ids| == 0 then scores
    else
      var p := ids[..|ids| - 1];
      var x := ids[|ids| - 1];
      var m := SetScores(scores, p, s);
      assert ids == p + [x];
      if x in m then m[x := Some(s)] else m
  }

  /** `update_scores(item_ids, new_score)`: the listed ids that have a
      score row now hold the new score, every other row that held it is
      cleared to NULL, and all other rows and tables are unchanged. */
  function UpdateScores(db: Db, ids: seq<string>, s: int): (r: Db)
    ensures r.scores.Keys == db.scores.Keys
    ensures forall k :: k in r.scores ==>
      r.scores[k] == if k in ids then Some(s) else if db.scores[k] == Some(s) then None else db.scores[k]
    ensures r.items == db.items && r.details == db.details && r.users == db.users && r.gacha == db.gacha
  {
    db.(scores := SetScores(ClearScore(db.scores, s), ids, s))
  }

  /** After `update_scores` the new score is held by exactly the listed
      ids that have a score row: no score is ever shared with an unlisted
      item. */
  lemma ScoreHolders(db: Db, ids: seq<string>, s: int, k: string)
    ensures var r := UpdateScores(db, ids, s);
      (k in r.scores && r.scores[k] == Some(s)) <==> (k in db.scores && k in ids)
  {
  }

  /** Repeating `update_scores` with the same arguments changes nothing. */
  lemma UpdateScoresIdempotent(db: Db, ids: seq<string>, s: int)
    ensures UpdateScores(UpdateScores(db, ids, s), ids, s) == UpdateScores(db, ids, s)
  {
    var once := UpdateScores(db, ids, s);
    var twice := UpdateScores(once, ids, s);
    assert twice.scores == once.scores;
  }

  /** The rows of one user on one date. */
  function OnDate(uid: string, date: string): GachaRow -> bool
  {
    (g: GachaRow) => g.uid == uid && g.date == date
  }

  function NotOnDate(uid: string, date: string): GachaRow -> bool
  {
    (g: GachaRow) => !(g.uid == uid && g.date == date)
  }

  /** The rows `update_user_gacha` inserts: one per id, in order,
      repetitions kept. */
  function NewRows(uid: string, ids: seq<string>, date: string): (r: seq<GachaRow>)
    ensures |r| == |ids| && forall i :: 0 <= i < |ids| ==> r[i] == GachaRow(uid, ids[i], date)
  {
    seq(|ids|, i requires 0 <= i < |ids| => GachaRow(uid, ids[i], date))
  }

  /** `update_user_gacha(uid, new_item_ids, date)`: the user's rows for
      that date are replaced by one row per given id. */
  function UpdateUserGacha(db: Db, uid: string, ids: seq<string>, date: string): (r: Db)
    ensures r.items == db.items && r.details == db.details && r.scores == db.scores && r.users == db.users
  {
    db.(gacha := Seqs.Filter(db.gacha, NotOnDate(uid, date)) + NewRows(uid, ids, date))
  }

  /** Afterwards the user's rows for that date are exactly the new ones,
      and every other row is the one that was there, in the same order. */
  lemma UpdateUserGachaRows(db: Db, uid: string, ids: seq<string>, date: string)
    ensures Seqs.Filter(UpdateUserGacha(db, uid, ids, date).gacha, OnDate(uid, date)) == NewRows(uid, ids, date)
    ensures Seqs.Filter(UpdateUserGacha(db, uid, ids, date).gacha, NotOnDate(uid, date))
      == Seqs.Filter(db.gacha, NotOnDate(uid, date))
  {
    var kept := Seqs.Filter(db.gacha, NotOnDate(uid, date));
    var added := NewRows(uid, ids, date);
    Seqs.FilterConcat(kept, added, OnDate(uid, date));
    Seqs.FilterConcat(kept, added, NotOnDate(uid, date));
    Seqs.FilterDropsAll(kept, OnDate(uid, date));
    Seqs.FilterKeepsAll(added, OnDate(uid, date));
    Seqs.FilterKeepsAll(kept, NotOnDate(uid, date));
    Seqs.FilterDropsAll(added, NotOnDate(uid, date));
  }

  /** Repeating `update_user_gacha` with the same arguments changes
      nothing. */
  lemma UpdateUserGachaIdempotent(db: Db, uid: string, ids: seq<string>, date: string)
    ensures UpdateUserGacha(UpdateUserGacha(db, uid, ids, date), uid, ids, date) == UpdateUserGacha(db, uid, ids, date)
  {
    UpdateUserGachaRows(db, uid, ids, date);
  }

  /** `clear_data`: all five tables emptied. */
  function ClearData(db: Db): (r: Db)
    ensures r.items == [] && r.details == [] && r.scores == map[] && r.users == [] && r.gacha == []
  {
    Db([], [], map[], [], [])
  }

  /** After `clear_data` the catalogue is empty and no user has a score
      row to read. */
  lemma ClearedCatalogIsEmpty(db: Db, ids: seq<string>, s: int)
    ensures FetchItems(ClearData(db)) == []
    ensures UpdateScores(ClearData(db), ids, s).scores == map[]
  {
  }

  /** A refresh right after `clear_data` starts every scraped item at score
      0 and leaves the users and their submissions empty. */
  lemma RefreshAfterClear(db: Db, data1: Result<seq<Record>, ScrapeError>, data2: Result<seq<Record>, ScrapeError>)
    requires UpdateData(ClearData(db), data1, data2).Ok?
    ensures var r := UpdateData(ClearData(db), data1, data2).value;
      && (forall id :: id in r.scores <==> id in RecIds(data1.value + data2.value))
      && (forall id :: id in r.scores ==> r.scores[id] == Some(0))
      && r.users == [] && r.gacha == []
  {
  }
}
