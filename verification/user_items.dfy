/** The leaderboard's per-user item history: which users still need their
    date-grouped submissions fetched, how the fetched comma-joined ids become
    catalogue items, and the deduplicated item list shown for each user up
    to the cutoff date. */
module UserItems {
  import opened Wrappers
  import opened Catalog
  import opened ScoreData
  import Seqs
  import Text
  import Leaderboard

  /** `allItems.reduce((acc, item) => { acc[item.id] = item; ... }, {})`. */
  type ItemMap = map<string, Item>

  /** Index `i` holds the last item with that id. */
  predicate IsLastWithId(items: seq<Item>, id: string, i: int)
  {
    0 <= i < |items| && items[i].id == id && forall j :: i < j < |items| ==> items[j].id != id
  }

  /** The id index of the catalogue: every id maps to the LAST item that
      carries it, because later assignments overwrite earlier ones. */
  function BuildItemMap(items: seq<Item>): (m: ItemMap)
    ensures forall id :: id in m <==> Seqs.HasKey(items, ItemId, id)
    ensures forall id :: id in m ==> m[id].id == id
    ensures forall i :: 0 <= i < |items| && IsLastWithId(items, items[i].id, i) ==>
      items[i].id in m && m[items[i].id] == items[i]
  {
    if |items| == 0 then map[]
    else
      var p, x := items[..|items| - 1], items[|items| - 1];
      assert items == p + [x];
      var m := BuildItemMap(p);
      var r := m[x.id := x];
      assert forall id :: id in r <==> Seqs.HasKey(items, ItemId, id) by {
        forall id ensures id in r <==> Seqs.HasKey(items, ItemId, id) {
          Seqs.HasKeyAppend(p, x, ItemId, id);
        }
      }
      assert forall i :: 0 <= i < |items| && IsLastWithId(items, items[i].id, i) ==>
        items[i].id in r && r[items[i].id] == items[i] by {
        forall i | 0 <= i < |items| && IsLastWithId(items, items[i].id, i)
          ensures items[i].id in r && r[items[i].id] == items[i]
        {
          if i < |p| {
            assert items[i] == p[i];
            assert IsLastWithId(p, p[i].id, i);
          }
        }
      }
      r
  }

  /** One answer of the per-user fetch: the date-to-ids object, or nothing
      when the request or its JSON decoding failed. */
  datatype FetchResult = FetchResult(uid: string, data: Option<seq<DayIds>>)

  /** One entry of a user's decoded date map. */
  datatype DayItems = DayItems(date: string, items: seq<Item>)

  /** `userDailyItems`: uid to the decoded date map of that user. */
  type Loaded = map<string, seq<DayItems>>

  /** The users whose history is requested: every distinct uid of the daily
      feed, in order of first appearance, that has not been loaded yet; and
      nobody while the daily feed or the item index is still empty. */
  function PendingUids(daily: seq<Leaderboard.DailyScore>, itemMap: ItemMap, loaded: Loaded): (r: seq<string>)
    ensures Seqs.IsSubsequence(r, Leaderboard.UniqueUids(daily))
    ensures Seqs.Distinct(r)
    ensures forall uid :: uid in r <==>
      |daily| > 0 && |itemMap| > 0 && uid in Leaderboard.Uids(daily) && uid !in loaded
  {
    if |daily| == 0 || |itemMap| == 0 then []
    else
      var u := Leaderboard.UniqueUids(daily);
      Seqs.FilterDistinct(u, uid => uid !in loaded);
      Seqs.Filter(u, uid => uid !in loaded)
  }

  /** A trimmed id is looked up in the index; unknown ids are dropped. */
  function LookupIds(pieces: seq<string>, itemMap: ItemMap): (r: seq<Item>)
    ensures |r| <= |pieces|
    ensures forall i :: 0 <= i < |r| ==> r[i] in itemMap.Values
  {
    if |pieces| == 0 then []
    else
      var rest := LookupIds(pieces[1..], itemMap);
      var k := Text.Trim(pieces[0]);
      if k in itemMap then [itemMap[k]] + rest else rest
  }

  /** When every id is known, each one yields its item. */
  lemma {:induction false} LookupAllKnown(pieces: seq<string>, itemMap: ItemMap)
    requires forall i :: 0 <= i < |pieces| ==> Text.Trim(pieces[i]) in itemMap
    ensures LookupIds(pieces, itemMap) ==
      seq(|pieces|, i requires 0 <= i < |pieces| => itemMap[Text.Trim(pieces[i])])
  {
    if |pieces| > 0 {
      assert forall i :: 1 <= i < |pieces| ==> pieces[1..][i - 1] == pieces[i];
      LookupAllKnown(pieces[1..], itemMap);
    }
  }

  /** When no id is known, the day holds no item. */
  lemma {:induction false} LookupNoneKnown(pieces: seq<string>, itemMap: ItemMap)
    requires forall i :: 0 <= i < |pieces| ==> Text.Trim(pieces[i]) !in itemMap
    ensures LookupIds(pieces, itemMap) == []
  {
    if |pieces| > 0 {
      assert forall i :: 1 <= i < |pieces| ==> pieces[1..][i - 1] == pieces[i];
      LookupNoneKnown(pieces[1..], itemMap);
    }
  }

  /** A piece whose trimmed id is in the index. */
  function KnownPiece(itemMap: ItemMap): string -> bool
  {
    (x: string) => Text.Trim(x) in itemMap
  }

  /** Unknown pieces drop out and leave the rest alone. */
  lemma {:induction false} LookupSkipsUnknown(pieces: seq<string>, itemMap: ItemMap)
    ensures LookupIds(pieces, itemMap) == LookupIds(Seqs.Filter(pieces, KnownPiece(itemMap)), itemMap)
  {
    if |pieces| > 0 {
      var x, t := pieces[0], pieces[1..];
      LookupSkipsUnknown(t, itemMap);
      assert pieces == [x] + t;
      Seqs.FilterCons(x, t, KnownPiece(itemMap));
      var f := Seqs.Filter(t, KnownPiece(itemMap));
      if KnownPiece(itemMap)(x) {
        assert ([x] + f)[0] == x && ([x] + f)[1..] == f;
      }
    }
  }

  /** For any pieces: the item of each known trimmed id, in order, with
      duplicates kept and unknown ids dropped. */
  lemma LookupFiltered(pieces: seq<string>, itemMap: ItemMap)
    ensures var known := Seqs.Filter(pieces, KnownPiece(itemMap));
      LookupIds(pieces, itemMap) == seq(|known|, i requires 0 <= i < |known| => itemMap[Text.Trim(known[i])])
  {
    LookupSkipsUnknown(pieces, itemMap);
    LookupAllKnown(Seqs.Filter(pieces, KnownPiece(itemMap)), itemMap);
  }

  /** One date's ids decoded: an empty entry is the empty list, any other is
      split on commas, trimmed, looked up and stripped of unknown ids. */
  function DecodeDay(ids: string, itemMap: ItemMap): (r: seq<Item>)
    ensures ids == "" ==> r == []
    ensures forall i :: 0 <= i < |r| ==> r[i] in itemMap.Values
    ensures ids != "" ==> var known := Seqs.Filter(Text.Split(ids, ','), KnownPiece(itemMap));
      r == seq(|known|, i requires 0 <= i < |known| => itemMap[Text.Trim(known[i])])
  {
    if ids == "" then []
    else
      LookupFiltered(Text.Split(ids, ','), itemMap);
      LookupIds(Text.Split(ids, ','), itemMap)
  }

  /** Ids that are known, already trimmed and comma-free decode to their
      items, in order and with repetitions. */
  lemma DecodeDayJoin(keys: seq<string>, itemMap: ItemMap)
    requires forall i :: 0 <= i < |keys| ==> ',' !in keys[i]
    requires forall i :: 0 <= i < |keys| ==> Text.Trim(keys[i]) == keys[i]
    requires forall i :: 0 <= i < |keys| ==> keys[i] in itemMap
    requires keys != [""]
    ensures DecodeDay(Text.Join(keys, ','), itemMap) == seq(|keys|, i requires 0 <= i < |keys| => itemMap[keys[i]])
  {
    if |keys| > 0 {
      var s := Text.Join(keys, ',');
      JoinNotEmpty(keys);
      Text.SplitJoin(keys, ',');
      assert DecodeDay(s, itemMap) == LookupIds(keys, itemMap);
      LookupTrimmed(keys, itemMap);
    }
  }

  lemma LookupTrimmed(keys: seq<string>, itemMap: ItemMap)
    requires forall i :: 0 <= i < |keys| ==> Text.Trim(keys[i]) == keys[i] && keys[i] in itemMap
    ensures LookupIds(keys, itemMap) == seq(|keys|, i requires 0 <= i < |keys| => itemMap[keys[i]])
  {
    LookupAllKnown(keys, itemMap);
  }

  /** Only the empty list and the single empty id join to the empty
      string. */
  lemma JoinNotEmpty(keys: seq<string>)
    requires |keys| > 0 && keys != [""]
    ensures Text.Join(keys, ',') != ""
  {
    if |keys| == 1 {
      assert keys == [keys[0]];
    } else {
      assert Text.Join(keys, ',') == keys[0] + [','] + Text.Join(keys[1..], ',');
    }
  }

  /** The decoded date map of one user: the dates in their order, each with
      its decoded items. */
  function DecodeDates(data: seq<DayIds>, itemMap: ItemMap): (r: seq<DayItems>)
    ensures |r| == |data|
    ensures forall i :: 0 <= i < |r| ==> r[i].date == data[i].date
    ensures forall i :: 0 <= i < |r| ==> forall j :: 0 <= j < |r[i].items| ==> r[i].items[j] in itemMap.Values
  {
    seq(|data|, i requires 0 <= i < |data| => DayItems(data[i].date, DecodeDay(data[i].ids, itemMap)))
  }

  /** The last successful answer for `uid` among `results`. */
  function LastSuccess(results: seq<FetchResult>, uid: string): Option<seq<DayIds>>
  {
    if |results| == 0 then None
    else
      var x := results[|results| - 1];
      if x.uid == uid && x.data.Some? then x.data else LastSuccess(results[..|results| - 1], uid)
  }

  /** `setUserDailyItems(prev => ...)`: every successful answer replaces that
      user's entry; failed answers leave the previous state alone. */
  function Merge(prev: Loaded, results: seq<FetchResult>, itemMap: ItemMap): (r: Loaded)
    ensures forall uid :: uid in r <==> uid in prev || LastSuccess(results, uid).Some?
    ensures forall uid :: uid in r ==>
      r[uid] == match LastSuccess(results, uid)
                case Some(d) => DecodeDates(d, itemMap)
                case None => prev[uid]
  {
    if |results| == 0 then prev
    else
      var m := Merge(prev, results[..|results| - 1], itemMap);
      var x := results[|results| - 1];
      match x.data
      case None => m
      case Some(d) => m[x.uid := DecodeDates(d, itemMap)]
  }

  /** With one answer per uid, the last success of a uid is its own
      answer's data. */
  lemma {:induction false} LastSuccessOfDistinct(results: seq<FetchResult>, i: int)
    requires forall a, b :: 0 <= a < b < |results| ==> results[a].uid != results[b].uid
    requires 0 <= i < |results|
    ensures LastSuccess(results, results[i].uid) == results[i].data
  {
    var n := |results| - 1;
    if i < n {
      var p := results[..n];
      assert p[i] == results[i];
      LastSuccessOfDistinct(p, i);
    } else {
      var p := results[..n];
      assert forall a :: 0 <= a < n ==> p[a] == results[a];
      LastSuccessAbsent(p, results[i].uid);
    }
  }

  /** A uid that was not requested has no success. */
  lemma {:induction false} LastSuccessAbsent(results: seq<FetchResult>, uid: string)
    requires forall a :: 0 <= a < |results| ==> results[a].uid != uid
    ensures LastSuccess(results, uid).None?
  {
    if |results| > 0 {
      var p := results[..|results| - 1];
      assert forall a :: 0 <= a < |p| ==> p[a] == results[a];
      LastSuccessAbsent(p, uid);
    }
  }

  /** The merge of one round of answers, one per uid: a user whose request
      failed keeps its previous entry (or still has none), a user whose
      request succeeded gets the decoded answer, and nobody else changes. */
  lemma MergeRound(prev: Loaded, results: seq<FetchResult>, itemMap: ItemMap)
    requires forall a, b :: 0 <= a < b < |results| ==> results[a].uid != results[b].uid
    ensures forall i :: 0 <= i < |results| && results[i].data.Some? ==>
      var r := Merge(prev, results, itemMap);
      results[i].uid in r && r[results[i].uid] == DecodeDates(results[i].data.value, itemMap)
    ensures forall i :: 0 <= i < |results| && results[i].data.None? ==>
      var r := Merge(prev, results, itemMap);
      (results[i].uid in r <==> results[i].uid in prev) &&
      (results[i].uid in prev ==> r[results[i].uid] == prev[results[i].uid])
    ensures forall uid :: (forall a :: 0 <= a < |results| ==> results[a].uid != uid) ==>
      var r := Merge(prev, results, itemMap);
      (uid in r <==> uid in prev) && (uid in prev ==> r[uid] == prev[uid])
  {
    forall i | 0 <= i < |results| {
      LastSuccessOfDistinct(results, i);
    }
    forall uid | forall a :: 0 <= a < |results| ==> results[a].uid != uid {
      LastSuccessAbsent(results, uid);
    }
  }

  /** After one round, a user whose request failed is still pending and is
      requested again the next time the effect runs; a user whose request
      succeeded is no longer pending. */
  lemma FailedUidStaysPending(daily: seq<Leaderboard.DailyScore>, itemMap: ItemMap, prev: Loaded,
                              results: seq<FetchResult>, i: int)
    requires forall a, b :: 0 <= a < b < |results| ==> results[a].uid != results[b].uid
    requires 0 <= i < |results| && results[i].uid in PendingUids(daily, itemMap, prev)
    ensures results[i].data.None? ==> results[i].uid in PendingUids(daily, itemMap, Merge(prev, results, itemMap))
    ensures results[i].data.Some? ==> results[i].uid !in PendingUids(daily, itemMap, Merge(prev, results, itemMap))
  {
    MergeRound(prev, results, itemMap);
  }

  /** `filterDate && date > filterDate`: a date after a non-empty cutoff is
      left out. */
  predicate Skipped(date: string, cutoff: Option<string>)
  {
    cutoff.Some? && cutoff.value != "" && Text.Less(cutoff.value, date)
  }

  /** The items of the dates that are not cut off, concatenated in date
      order. */
  function KeptItems(dates: seq<DayItems>, cutoff: Option<string>): (r: seq<Item>)
    ensures forall x :: x in r <==>
      exists d :: 0 <= d < |dates| && !Skipped(dates[d].date, cutoff) && x in dates[d].items
  {
    if |dates| == 0 then []
    else
      var p, last := dates[..|dates| - 1], dates[|dates| - 1];
      var rest := KeptItems(p, cutoff);
      assert forall d :: 0 <= d < |p| ==> p[d] == dates[d];
      if Skipped(last.date, cutoff) then rest else rest + last.items
  }

  /** One user's item list on the leaderboard: every item of a date up to
      the cutoff, once per id, in order of first appearance. */
  function AggregatedItems(dates: seq<DayItems>, cutoff: Option<string>): (r: seq<Item>)
    ensures Seqs.FirstOccurrences(r, KeptItems(dates, cutoff), ItemId)
    ensures forall i, j :: 0 <= i < j < |r| ==> r[i].id != r[j].id
    ensures forall x :: x in r ==>
      exists d :: 0 <= d < |dates| && !Skipped(dates[d].date, cutoff) && x in dates[d].items
  {
    var k := KeptItems(dates, cutoff);
    Seqs.DedupByFirstOccurrences(k, ItemId);
    var r := Seqs.DedupBy(k, ItemId);
    assert forall x :: x in r ==> x in k by {
      forall x | x in r ensures x in k {
        var j :| 0 <= j < |r| && r[j] == x;
        assert k[Seqs.FirstIndex(k, ItemId, ItemId(r[j]))] == r[j];
      }
    }
    r
  }

  /** Every item of a date that is not cut off is represented, by id, in
      the user's list. */
  lemma AggregatedCovers(dates: seq<DayItems>, cutoff: Option<string>, d: int, x: Item)
    requires 0 <= d < |dates| && !Skipped(dates[d].date, cutoff) && x in dates[d].items
    ensures Seqs.HasKey(AggregatedItems(dates, cutoff), ItemId, x.id)
  {
    var k := KeptItems(dates, cutoff);
    assert x in k;
    var i :| 0 <= i < |k| && k[i] == x;
    assert Seqs.HasKey(AggregatedItems(dates, cutoff), ItemId, ItemId(k[i]));
  }

  /** One item of the inner loop: a known id leaves the list alone, a new
      one is appended and its id becomes known. */
  lemma AddStep(pre: seq<Item>, item: Item, items: seq<Item>, seen: set<string>)
    requires items == Seqs.DedupBy(pre, ItemId)
    requires forall id :: id in seen <==> Seqs.HasKey(items, ItemId, id)
    ensures item.id in seen ==> items == Seqs.DedupBy(pre + [item], ItemId)
    ensures item.id !in seen ==> items + [item] == Seqs.DedupBy(pre + [item], ItemId)
    ensures item.id !in seen ==>
      forall id :: id in seen + {item.id} <==> Seqs.HasKey(items + [item], ItemId, id)
  {
    Seqs.DedupByAppend(pre, item, ItemId);
    forall id {
      Seqs.HasKeyAppend(items, item, ItemId, id);
    }
  }

  /** The inner loop over one date's items: an item whose id is not in
      `seen` is appended and its id added. */
  method AddItems(before: seq<Item>, list: seq<Item>, items0: seq<Item>, seen0: set<string>)
    returns (items: seq<Item>, seen: set<string>)
    requires items0 == Seqs.DedupBy(before, ItemId)
    requires forall id :: id in seen0 <==> Seqs.HasKey(items0, ItemId, id)
    ensures items == Seqs.DedupBy(before + list, ItemId)
    ensures forall id :: id in seen <==> Seqs.HasKey(items, ItemId, id)
  {
    items, seen := items0, seen0;
    var k := 0;
    assert before + list[..0] == before;
    while k < |list|
      invariant 0 <= k <= |list|
      invariant items == Seqs.DedupBy(before + list[..k], ItemId)
      invariant forall id :: id in seen <==> Seqs.HasKey(items, ItemId, id)
    {
      var item := list[k];
      assert before + list[..k + 1] == (before + list[..k]) + [item];
      AddStep(before + list[..k], item, items, seen);
      if item.id !in seen {
        seen := seen + {item.id};
        items := items + [item];
      }
      k := k + 1;
    }
    assert list[..|list|] == list;
  }

  /** The `seen`-set loops of `aggregatedUserItems` for one user compute the
      user's list. */
  method AggregateLoop(dates: seq<DayItems>, cutoff: Option<string>) returns (items: seq<Item>)
    ensures items == AggregatedItems(dates, cutoff)
  {
    var seen: set<string> := {};
    items := [];
    var d := 0;
    while d < |dates|
      invariant 0 <= d <= |dates|
      invariant items == Seqs.DedupBy(KeptItems(dates[..d], cutoff), ItemId)
      invariant forall id :: id in seen <==> Seqs.HasKey(items, ItemId, id)
    {
      assert dates[..d + 1][..d] == dates[..d];
      if !Skipped(dates[d].date, cutoff) {
        items, seen := AddItems(KeptItems(dates[..d], cutoff), dates[d].items, items, seen);
      }
      d := d + 1;
    }
    assert dates[..|dates|] == dates;
  }

  /** `aggregatedUserItems`: one list per loaded user. */
  function AggregatedUserItems(loaded: Loaded, cutoff: Option<string>): (r: map<string, seq<Item>>)
    ensures r.Keys == loaded.Keys
    ensures forall uid :: uid in r ==> Seqs.FirstOccurrences(r[uid], KeptItems(loaded[uid], cutoff), ItemId)
  {
    map uid | uid in loaded :: AggregatedItems(loaded[uid], cutoff)
  }

  /** `dates.find((d) => d.id === 2)?.date || null`: the leaderboard cutoff,
      where an empty date counts as no cutoff. */
  function LeaderboardCutoff(records: seq<AdminTime>): (r: Option<string>)
    ensures r.Some? ==> r.value != "" && FindDate(records, CutoffDateId) == r
    ensures r.None? <==> FindDate(records, CutoffDateId) in {None, Some("")}
  {
    match FindDate(records, CutoffDateId)
    case Some(date) => if date == "" then None else Some(date)
    case None => None
  }
}
