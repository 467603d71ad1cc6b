/** The per-user score history page: the days a user submitted items for,
    strictly before the cutoff date, each with a collapsible item list. */
module ViewScore {
  import opened Wrappers
  import opened Catalog
  import opened ScoreData
  import Seqs
  import Text
  import UserItems

  /** `?uid=` present and non-empty: only then is the history fetched. */
  predicate FetchesScores(uid: Option<string>)
  {
    uid.Some? && uid.value != ""
  }

  function Before(cutoff: string): DayIds -> bool
  {
    (d: DayIds) => Text.Less(d.date, cutoff)
  }

  /** `Object.entries(data).filter(([date]) => date < filterDate)`: the days
      strictly before the cutoff, in their order. */
  function VisibleDays(data: seq<DayIds>, cutoff: string): (r: seq<DayIds>)
    ensures Seqs.IsSubsequence(r, data)
    ensures forall d :: d in r <==> d in data && Text.Less(d.date, cutoff)
  {
    Seqs.Filter(data, Before(cutoff))
  }

  /** The cutoff day itself is hidden here, while the leaderboard keeps it:
      the two pages disagree about that one day. */
  lemma CutoffDayHiddenHereShownThere(data: seq<DayIds>, cutoff: string, ids: string)
    requires cutoff != ""
    requires DayIds(cutoff, ids) in data
    ensures DayIds(cutoff, ids) !in VisibleDays(data, cutoff)
    ensures !UserItems.Skipped(cutoff, Some(cutoff))
  {
    Text.LessIrreflexive(cutoff);
  }

  /** `renderItemCard`'s item list: the ids split on commas without
      trimming, each replaced by its first catalogue item, unknown ids
      dropped. */
  function CardItems(ids: string, catalog: seq<Item>): (r: seq<Item>)
    ensures forall i :: 0 <= i < |r| ==> r[i] in catalog
    ensures |r| <= |Text.Split(ids, ',')|
    ensures r == FirstItems(Seqs.Filter(Text.Split(ids, ','), Known(catalog)), catalog)
  {
    FindAllFiltered(Text.Split(ids, ','), catalog);
    FindAll(Text.Split(ids, ','), catalog)
  }

  /** A submitted basket of catalogue ids is shown as the catalogue items,
      in submission order, repetitions included. */
  lemma CardItemsJoin(keys: seq<string>, catalog: seq<Item>)
    requires |keys| >= 1
    requires forall i :: 0 <= i < |keys| ==> ',' !in keys[i]
    requires AllKnown(keys, catalog)
    ensures CardItems(Text.Join(keys, ','), catalog) == FirstItems(keys, catalog)
  {
    Text.SplitJoin(keys, ',');
    FindAllKnown(keys, catalog);
  }

  /** `isExpanded[date]`: a date never toggled is collapsed. */
  predicate IsExpanded(expanded: map<string, bool>, date: string)
  {
    date in expanded && expanded[date]
  }

  /** `toggleExpand(date)`: flips one date and leaves the others alone. */
  function ToggleExpand(expanded: map<string, bool>, date: string): (r: map<string, bool>)
    ensures IsExpanded(r, date) <==> !IsExpanded(expanded, date)
    ensures forall d :: d != date ==> (d in r <==> d in expanded) && (d in r ==> r[d] == expanded[d])
  {
    expanded[date := !IsExpanded(expanded, date)]
  }

  /** Two clicks leave every date as it was shown. */
  lemma ToggleExpandTwice(expanded: map<string, bool>, date: string, d: string)
    ensures IsExpanded(ToggleExpand(ToggleExpand(expanded, date), date), d) == IsExpanded(expanded, d)
  {
  }

  /** The button label: the date and an up arrow when open, a down arrow
      when closed. */
  function Title(date: string, open: bool): (t: string)
    ensures |t| == |date| + 2 && t[..|date|] == date && t[|date|] == ' '
    ensures t[|date| + 1] == if open then '\U{25B2}' else '\U{25BC}'
  {
    date + " " + (if open then "\U{25B2}" else "\U{25BC}")
  }

  /** One rendered day. */
  datatype Card = Card(date: string, title: string, open: bool, items: seq<Item>)

  datatype View =
    | Prompt   // "Please provide a valid UID to access this page."
    | Loading  // the cutoff has not arrived (or is empty)
    | Days(cards: seq<Card>)

  function RenderCard(d: DayIds, catalog: seq<Item>, expanded: map<string, bool>): Card
  {
    Card(d.date, Title(d.date, IsExpanded(expanded, d.date)), IsExpanded(expanded, d.date), CardItems(d.ids, catalog))
  }

  /** The page: a prompt without uid, a loading notice without cutoff, and
      otherwise one card per day before the cutoff. */
  function Render(uid: Option<string>, cutoff: Option<string>, data: seq<DayIds>,
                  catalog: seq<Item>, expanded: map<string, bool>): (v: View)
    ensures v.Prompt? <==> !FetchesScores(uid)
    ensures v.Loading? <==> FetchesScores(uid) && (cutoff.None? || cutoff.value == "")
    ensures v.Days? ==> |v.cards| == |VisibleDays(data, cutoff.value)|
    ensures v.Days? ==> forall i :: 0 <= i < |v.cards| ==>
      var d := VisibleDays(data, cutoff.value)[i];
      && v.cards[i].date == d.date && Text.Less(d.date, cutoff.value)
      && v.cards[i].open == IsExpanded(expanded, d.date)
      && v.cards[i].items == CardItems(d.ids, catalog)
  {
    if !FetchesScores(uid) then Prompt
    else if cutoff.None? || cutoff.value == "" then Loading
    else
      var days := VisibleDays(data, cutoff.value);
      assert forall i :: 0 <= i < |days| ==> Text.Less(days[i].date, cutoff.value) by {
        forall i | 0 <= i < |days| ensures Text.Less(days[i].date, cutoff.value) {
          assert Before(cutoff.value)(days[i]);
        }
      }
      Days(seq(|days|, i requires 0 <= i < |days| => RenderCard(days[i], catalog, expanded)))
  }
}
