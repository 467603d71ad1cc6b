# dog-king: the score pages and the catalogue scraper

dog-king is a small score-keeping site for a gacha game. Players pick the
items they pulled from a catalogue, the site gives each item a score, and a
leaderboard ranks the players. This project models the logic inside that
site and proves properties of it:

- **Catalogue selection and the score basket**
  - the three-facet item filter (element `zo`, weapon `bu`, acquisition `get`)
    and its checkbox toggles;
  - the basket of picked item ids: click, remove, resolve against the catalogue;
  - the comma-joined form in which a basket goes to the server and comes back.
- **The leaderboard**
  - the total-score ranking;
  - the distinct-user list and the gap-free day axis;
  - each user's cumulative daily-score line and its hue;
  - which users' histories are fetched, and how each fetched answer is decoded
    and merged;
  - the deduplicated item list shown for each user up to the cutoff date.
- **A user's history page**: days strictly before the cutoff, the item cards,
  and the per-day expand toggles.
- **The account pages**
  - the registration form's ordered checks;
  - the login form's classification of the server's answer;
  - the session gate, which re-checks stored credentials on every load.
- **The admin date page**: the scoring date (id 1) and the cutoff date (id 2).
- **The Python side**
  - the scraper that turns table rows of two source pages into catalogue
    records: class tokens become details, the image file name becomes the id;
  - the `DBManager` table operations (`update_data`, `fetch_items`,
    `update_scores`, `update_user_gacha`, `clear_data`), as pure functions over
    tables held as sequences and maps of rows.

Modules:

| module | what it models |
|---|---|
| `Wrappers` | `Option` and `Result` |
| `Seqs` | filters, subsequences, first-occurrence deduplication |
| `Text` | JavaScript `split`, `join` and `trim` on one character; decimal numerals; string `<` |
| `Js` | the uid reply values: truthiness, `String(v)`, the login pages' uid test |
| `Catalog` | a catalogue item; `find` by id |
| `Selection` | the facet filter and `toggleSet` (same code in `Update.js` and `ItemSCore.js`) |
| `Basket` | the basket and the score-pool page (`ItemSCore.js`; add/remove/resolve also in `Update.js`) |
| `Leaderboard` | the feeds; distinct uids; the ranking |
| `DailyChart` | `userEntries`, `allDates`, the cumulative lines, the hue |
| `UserItems` | the item index; pending uids; decoding and merging per-user histories; `aggregatedUserItems` |
| `ScoreData` | the per-user day/ids entries and the admin date records |
| `ViewScore` | the history page |
| `DateManager` | the admin date page |
| `Login`, `Register`, `Session` | the account pages |
| `Scrape` | class-token and image-id parsing; the row loop of `DBManager.py` and `raw.py` |
| `Tables` | the database and its operations |

Representation choices:

- A calendar date on the leaderboard's day axis is an integer day number, so
  consecutive days are consecutive integers.
- A date used as a JSON object key is a `YYYY-MM-DD` string compared with
  string `<`.
- A JSON object is a sequence of entries with distinct keys, in insertion order.
- JavaScript `undefined` and `null` are one value.
- Item details are a map from key to integer.
- SQL NULL in `scores` is `None`.

## Model

| member | source | states |
|---|---|---|
| `Leaderboard.UniqueUids` | src/item/leaderboard.js:80-82 | The distinct uids contain no uid twice and are exactly the uids that occur in the feed. |
| `Leaderboard.UniqueUidsFirstOccurrences` | src/item/leaderboard.js:80-82 | A `Set` keeps insertion order, so the distinct uids are the feed's uids in order of first appearance. |
| `Leaderboard.UniqueUidsAppend` | src/item/leaderboard.js:80-82 | One more feed row appends its uid when the uid is new and leaves the list unchanged otherwise. |
| `Leaderboard.Insert` | src/item/leaderboard.js:45 | Inserting a row into the ranking adds exactly that row: the multiset grows by it and the length by one. |
| `Leaderboard.InsertSorted` | src/item/leaderboard.js:45 | Insertion keeps a ranking non-increasing by total, and the new head holds the larger of the old head's total and the row's. |
| `Leaderboard.SortByTotal` | src/item/leaderboard.js:45 | The ranking is a permutation of the feed, ordered non-increasing by `total_score`. |
| `Leaderboard.InsertFilter` | src/item/leaderboard.js:45 | An inserted row lands ahead of every row that has its own total. |
| `Leaderboard.SortStable` | src/item/leaderboard.js:45 | The sort is stable, as `Array.prototype.sort` is: rows with equal totals keep their feed order. |
| `DailyChart.Upsert` | src/item/leaderboard.js:275-280 | `Map.set(uid, {uid, name})`: a known uid keeps its place and takes the new name; a new uid is appended; no other entry changes. |
| `DailyChart.UserEntries` | src/item/leaderboard.js:274-281 | One entry per distinct uid, in order of first appearance in the daily feed. |
| `DailyChart.UserEntriesNames` | src/item/leaderboard.js:274-281 | Each entry carries the name from the last feed row of its uid: a later `set` replaces the value but not the position. |
| `DailyChart.MinDay` | src/item/leaderboard.js:284-287 | The earliest day is a day of some feed row and is no later than any row's day. |
| `DailyChart.MaxDay` | src/item/leaderboard.js:284-288 | The latest day is a day of some feed row and is no earlier than any row's day. |
| `DailyChart.Range` | src/item/leaderboard.js:289-294 | The cursor loop lists every day from start to end inclusive, one apart, and nothing when start is after end. |
| `DailyChart.AllDates` | src/item/leaderboard.js:282-296 | Empty exactly when there are no daily scores. Otherwise the days are consecutive, every row's day is among them, and both ends are days of feed rows. |
| `DailyChart.AllDatesDistinct` | src/item/leaderboard.js:282-296 | No day appears twice on the axis. |
| `DailyChart.ScoreOn` | src/item/leaderboard.js:299-305 | `scoreMap[date] or 0`: 0 when the user has no row that day, else the score of the user's last row that day, because `Object.fromEntries` keeps the last duplicate. |
| `DailyChart.Series` | src/item/leaderboard.js:304-307 | A user's line has one point per axis day. |
| `DailyChart.SeriesIsRunningTotal` | src/item/leaderboard.js:303-307 | Point i is the sum of the user's day scores over the axis days 0 to i. |
| `DailyChart.SeriesMonotone` | src/item/leaderboard.js:303-307 | With non-negative daily scores a line never goes down. |
| `DailyChart.SeriesEndsAtTotal` | src/item/leaderboard.js:298-308 | Given one row per user and day, and an axis that holds every row's day, the sum over the axis is the user's total of daily scores. |
| `DailyChart.ChartLines` | src/item/leaderboard.js:298-308 | One line per user entry, in first-appearance order of the uids. Line i is the running-total series of the i-th distinct uid over the whole day axis. |
| `DailyChart.ChartLineEndsAtTotal` | src/item/leaderboard.js:298-308 | With one row per user and day, the last point of each user's line is that user's total. |
| `DailyChart.CumulativeSeries` | src/item/leaderboard.js:303-307 | The `cumulative +=` loop computes exactly the running-total line. |
| `DailyChart.CharCode` | src/item/leaderboard.js:312 | `charCodeAt(0)` is one UTF-16 unit: the code point itself inside the Basic Multilingual Plane. |
| `DailyChart.Hue` | src/item/leaderboard.js:310-315 | The hue `(hash + index * 137) % 360` lies in 0..359. |
| `DailyChart.HueSeparatesIndices` | src/item/leaderboard.js:315 | Two lines whose uids have the same character-code sum get different hues when their indices are fewer than 360 apart. |
| `UserItems.BuildItemMap` | src/item/leaderboard.js:71-76 | The index holds exactly the catalogue's ids. Each id maps to an item with that id, namely the last catalogue item that has it. |
| `UserItems.PendingUids` | src/item/leaderboard.js:78-84 | The users to fetch are distinct uids of the feed, in first-appearance order, not yet loaded. There are none while the feed or the item index is empty. |
| `UserItems.LookupIds` | src/item/leaderboard.js:108-111 | Looking up the pieces yields at most one item per piece, and every item comes from the index. |
| `UserItems.LookupAllKnown` | src/item/leaderboard.js:108-111 | When every trimmed piece is a known id, there is one item per piece, in order, with duplicates kept. |
| `UserItems.LookupNoneKnown` | src/item/leaderboard.js:110-111 | Unknown ids are dropped by `filter(Boolean)`. |
| `UserItems.LookupSkipsUnknown` | src/item/leaderboard.js:108-111 | For any pieces, dropping the unknown ones first gives the same items: `filter(Boolean)` removes exactly the misses. |
| `UserItems.LookupFiltered` | src/item/leaderboard.js:108-111 | For any mix of known and unknown pieces, the result is the item of each known trimmed id, in order, with duplicates kept. |
| `UserItems.DecodeDay` | src/item/leaderboard.js:104-112 | An empty id string decodes to no items. Any other string decodes to the item of each comma piece whose trimmed id is in the index, in order, with duplicates kept and unknown ids dropped. |
| `UserItems.DecodeDayJoin` | src/item/leaderboard.js:103-113 | Known, trimmed, comma-free ids joined with "," decode back to their items, in order. |
| `UserItems.DecodeDates` | src/item/leaderboard.js:103-114 | A user's answer decodes to one entry per date, with the same dates in the same order. |
| `UserItems.Merge` | src/item/leaderboard.js:99-117 | A user is present afterwards iff present before or some answer for it succeeded. The last success for a user replaces the user's entry; a failed answer leaves the previous one. |
| `UserItems.MergeRound` | src/item/leaderboard.js:93-117 | For one answer per uid: a failed uid keeps its previous entry, or still has none; a successful uid gets its decoded answer; uids not in the batch are untouched. |
| `UserItems.FailedUidStaysPending` | src/item/leaderboard.js:82-100 | After a round, a pending user whose request failed is still pending and is requested again when the effect next runs; a user whose request succeeded is no longer pending. |
| `UserItems.KeptItems` | src/item/leaderboard.js:125-133 | An item is kept iff it belongs to a date not after a non-empty cutoff. |
| `UserItems.AggregatedItems` | src/item/leaderboard.js:121-138 | A user's list holds the first occurrence of each id among the kept items, in first-seen order. No id appears twice, and every item comes from a kept date. |
| `UserItems.AggregatedCovers` | src/item/leaderboard.js:125-133 | Every item of a kept date is represented, by id, in the user's list. |
| `UserItems.AddItems` | src/item/leaderboard.js:129-133 | The inner `forEach` with its `seen` set extends the deduplicated list by one day's items, and `seen` stays the set of listed ids. |
| `UserItems.AggregateLoop` | src/item/leaderboard.js:125-134 | The loop over the dates computes exactly the user's deduplicated list. |
| `UserItems.AggregatedUserItems` | src/item/leaderboard.js:121-138 | One list per loaded user, each the first occurrences of that user's kept items. |
| `UserItems.LeaderboardCutoff` | src/item/leaderboard.js:164 | `find(id === 2)?.date or null`: the first id-2 record's date, or no cutoff when that record is missing or its date is empty. |
| `ScoreData.FindDate` | src/ViewScore.js:30 | `find((d) => d.id === id)?.date`: the date of the first record with that id; nothing iff no record has it. |
| `Catalog.FindItem` | src/ItemSCore.js:66 | `allItems.find` by id: the first catalogue item with that id; nothing iff no item has it. |
| `Catalog.FindAll` | src/ViewScore.js:56-59 | Resolving ids and dropping misses yields at most one item per id, each from the catalogue. |
| `Catalog.FindAllKnown` | src/ViewScore.js:56-59 | When every id is known, resolution keeps order and duplicates and gives the first item of each id. |
| `Catalog.FindAllUnknown` | src/ViewScore.js:58-59 | Ids that match no catalogue item all drop out. |
| `Catalog.FindAllSkipsUnknown` | src/ViewScore.js:56-59 | For any ids, dropping the unknown ones first gives the same items. |
| `Catalog.FindAllFiltered` | src/ViewScore.js:56-59 | For any mix of known and unknown ids, resolution gives the first catalogue item of each known id, in order, with duplicates kept. |
| `ViewScore.VisibleDays` | src/ViewScore.js:96-97 | The shown days are a subsequence of the data: exactly the days strictly before the cutoff under string `<`. |
| `ViewScore.CutoffDayHiddenHereShownThere` | src/ViewScore.js:97 | The cutoff day itself is hidden on this page but kept by the leaderboard, which skips only days after the cutoff (`src/item/leaderboard.js:126`). |
| `ViewScore.CardItems` | src/ViewScore.js:55-59 | A card shows, for each comma piece that is an id of the catalogue, the first catalogue item with that id, in order, with duplicates kept; other pieces are dropped and nothing is trimmed. |
| `ViewScore.CardItemsJoin` | src/ViewScore.js:55-59 | Known comma-free ids joined with "," resolve to the first catalogue item of each, in order, with duplicates kept and no trimming. |
| `ViewScore.ToggleExpand` | src/ViewScore.js:48-53 | Only the given date's flag flips; an absent flag counts as collapsed; every other date keeps its flag or its absence. |
| `ViewScore.ToggleExpandTwice` | src/ViewScore.js:48-53 | Toggling a date twice restores every date's expanded state. |
| `ViewScore.Title` | src/ViewScore.js:74 | A card title is the date, a space, then ▲ when expanded or ▼ when collapsed. |
| `ViewScore.Render` | src/ViewScore.js:84-98 | The prompt shows iff there is no uid. Loading shows iff there is a uid but no cutoff. Otherwise there is one card per day before the cutoff, in order, with its expanded flag and resolved items. |
| `DateManager.FoldDates` | src/DateManager.js:14-18 | scoreDate is the date of the last id-1 record and openDate of the last id-2 record. A field is missing when no record has its id. |
| `DateManager.FoldIgnoresOtherIds` | src/DateManager.js:14-18 | Records with any other id do not affect either date. |
| `DateManager.SingleCutoffAgrees` | src/DateManager.js:16 | With exactly one id-2 record, the admin page's openDate and the other pages' first-match cutoff are the same date. |
| `DateManager.OnFetch` | src/DateManager.js:13-26 | The fetch answer always ends loading. A success sets the folded dates; a failure keeps the dates and sets the load error. |
| `DateManager.UpdateDate` | src/DateManager.js:29-43 | A success sets only the field of id 1 or id 2 to the server's `new_date`, and other ids change nothing. A failure keeps the dates and sets the update error. |
| `DateManager.Render` | src/DateManager.js:45-80 | Loading shows iff loading. The error page shows iff not loading and an error is set. The form shows the current dates. |
| `DateManager.InlineErrorNeverShown` | src/DateManager.js:78 | The error line inside the form can never appear, because an error replaces the whole form first (lines 46-47). |
| `DateManager.ErrorIsSticky` | src/DateManager.js:39-47 | Once an error is set, no sequence of later update answers brings the form back. |
| `Js.ToStr` | src/item/login.js:16 | `String(uid)`, the value `localStorage` stores: non-empty for a truthy uid, and a string uid stored as is. |
| `Login.Respond` | src/item/login.js:8-24 | Login succeeds iff the reply's uid is truthy and not the string "0". On success the stored string is `String(uid)`; otherwise there is one message for a rejected login and another for a network failure. |
| `Login.HandleLogin` | src/item/login.js:15-17 | As written, success hands the parent page the uid and never the credentials. |
| `Login.HandleLoginCorrected` | src/item/login.js:17 | With `{ username, password }` passed along, success hands the parent page exactly the entered credentials. |
| `Session.Init` | src/LoginAndUpdate.js:6-7 | At mount the uid is truthy iff a non-empty uid is stored, and the check is pending. |
| `Session.ClearSession` | src/LoginAndUpdate.js:9-13 | Both storage entries are removed and the uid is reset. |
| `Session.StoredCredential` | src/LoginAndUpdate.js:17-41 | The server is asked only when both entries are present, the credential decodes, and both its fields are non-empty. |
| `Session.VerifySession` | src/LoginAndUpdate.js:16-62 | The check always ends. The session survives iff the stored credential is usable and the re-login is accepted, and then it takes the server's uid. Every other path clears both entries. |
| `Session.HandleLoginSuccess` | src/LoginAndUpdate.js:68-80 | The uid is always stored and set. The credential entry is replaced only when credentials are given and encodable. |
| `Session.OnLogin` | src/LoginAndUpdate.js:97 | A failed login leaves the page unchanged; a successful one goes through `handleLoginSuccess` with what the form passed. |
| `Session.Render` | src/LoginAndUpdate.js:82-98 | The waiting notice shows iff checking. After the check, the score page shows iff the uid is truthy, and the login form shows otherwise. |
| `Session.CheckEnds` | src/LoginAndUpdate.js:20-61 | After the mount-time check the page never stays on the waiting notice. |
| `Session.ReloadForgetsLogin` | src/item/login.js:17 | With the form as written, a user who logs in without a stored credential is sent back to the login form by the next page load, whatever the server answers. |
| `Session.ReloadKeepsLogin` | src/LoginAndUpdate.js:68-77 | With the credentials passed on, the next load restores the session with the uid the server confirms. |
| `Register.Flatten` | src/item/register.js:20 | `data.flat()`: a name is in the flattened list iff it is in some row. |
| `Register.Validate` | src/item/register.js:30-45 | The checks apply in order and the first failure wins: username over 10 UTF-16 units, password over 4, mismatched confirmation, name already taken. Each error occurs exactly under its condition and all earlier checks passing. |
| `Register.HandleRegister` | src/item/register.js:29-62 | A request is sent iff validation passes, and otherwise the first failure's message shows. It redirects to `/update` iff the reply's uid passes the test, with the error cleared. A rejection and a network failure each show their own message. |
| `Register.StringZeroAcceptedAsWritten` | src/item/register.js:54 | `!== 0` refuses only the number 0, so the string "0" passes the test as written. |
| `Register.StringZeroRedirectsAsWritten` | src/item/register.js:54-55 | As written, a valid form answered with uid "0" redirects to the score page. |
| `Register.AcceptedUidRejectsZero` | src/item/login.js:15 | The login pages' test refuses both spellings of zero and accepts every other truthy uid. It accepts nothing the registration test refuses. |
| `Register.StringZeroRejected` | src/item/register.js:56-57 | With the login pages' test, the same reply shows the registration failure message. |
| `Selection.FilterItems` | src/ItemSCore.js:36-44 | The filtered list is a subsequence of the catalogue. An item is in it iff, for each facet, no box is ticked or the box named prefix plus the item's code is ticked. Kept items keep their multiplicity. The same effect is at `src/Update.js:23-31`. |
| `Selection.NoSelectionShowsAll` | src/Update.js:17-18 | With no box ticked the filter is the whole catalogue, as the initial `filteredItems` is. |
| `Selection.ToggleSet` | src/ItemSCore.js:211-219 | `toggleSet` flips membership of the value and of nothing else. The same function is at `src/Update.js:141-149`. |
| `Selection.ToggleSetInvolution` | src/Update.js:141-149 | Toggling the same value twice gives back the original set. |
| `Selection.Toggle` | src/ItemSCore.js:46-59 | A checkbox change toggles the value in its own facet's set only. |
| `Selection.ToggleTwiceSameFilter` | src/Update.js:33-46 | Ticking and unticking a box leaves the filtered list as it was. |
| `Basket.Click` | src/ItemSCore.js:61-63 | A click appends the item's id at the end: the basket grows by one, and an id may repeat. |
| `Basket.Remove` | src/ItemSCore.js:69-71 | Removal deletes every occurrence of the id, keeps the other ids in order, and keeps each other id's count. |
| `Basket.RemoveAbsent` | src/Update.js:56-58 | Removing an id that is not in the basket changes nothing. |
| `Basket.ClickThenRemove` | src/Update.js:48-58 | A click followed by removing the same item, when its id was not in the basket, restores the basket. |
| `Basket.Resolve` | src/ItemSCore.js:65-67 | Resolution keeps the basket's length. Each slot holds the first catalogue item with that id, or nothing iff no item has it. |
| `Basket.ResolveLeavesHole` | src/Update.js:52-54 | As written, basket ["32"] with an empty catalogue resolves to an empty slot, which the item card dereferences. |
| `Basket.ResolveKnown` | src/ItemSCore.js:65-67 | The corrected list holds only catalogue items, and when every id is known it is the first item of each id. |
| `Basket.ResolveKnownIsFound` | src/ItemSCore.js:65-67 | The corrected list is exactly the filled slots of the list as written, in basket order. |
| `Basket.Decode` | src/ItemSCore.js:31 | `v ? v.split(",") : []`: a missing or empty entry is the empty basket. Any other entry splits into comma-free ids that join back to it. |
| `Basket.DecodeEncode` | src/ItemSCore.js:86-106 | A basket of comma-free ids, other than the single empty id, comes back unchanged from the server round trip. |
| `Basket.EncodeDecode` | src/ItemSCore.js:89 | Joining a decoded entry gives the entry back. |
| `Basket.SingleEmptyIdIsLost` | src/ItemSCore.js:104-106 | The one basket the round trip does not preserve is [""]: it is sent as "" and read back as the empty basket. |
| `Basket.OnScoreListLoaded` | src/ItemSCore.js:25-34 | The pool is stored and the basket is read from key "15", whichever key is chosen. |
| `Basket.SelectKey` | src/ItemSCore.js:73-78 | Choosing a key replaces the basket with that key's entry. The basket is empty iff the entry is missing or empty, and a present entry is the joined basket. |
| `Basket.SubmitPayload` | src/ItemSCore.js:86-90 | The payload names the chosen key, and its value decodes back to the basket when the ids are comma-free and the basket is not [""]. |
| `Basket.OnSubmitReply` | src/ItemSCore.js:100-107 | As written: a failed submit changes nothing; a reply replaces the pool, and the basket is re-read from the reply under the key captured when the request was sent. When that is still the chosen key, the basket is the chosen key's entry. |
| `Basket.OnSubmitReplyCorrected` | src/ItemSCore.js:104-106 | Read under the chosen key, every reply leaves the basket equal to the chosen key's entry of the new pool. |
| `Basket.StaleKeyReply` | src/ItemSCore.js:104-106 | As written, if the key was switched while the request was in flight and the two entries differ, the basket shown is not the chosen key's entry, and the next submit writes the old key's entry under the new key. |
| `Basket.SubmitEchoKeepsBasket` | src/ItemSCore.js:86-106 | When the server echoes the submitted value under the chosen key, the basket is unchanged. |
| `Text.Split` | src/item/leaderboard.js:109 | `split(",")` yields at least one piece, no piece contains the separator, and the pieces joined with it give the input. |
| `Text.SplitJoin` | src/ItemSCore.js:89 | Splitting the join of a non-empty list of separator-free pieces gives the pieces back. |
| `Text.TrimStart` | src/item/leaderboard.js:110 | The leading part of `trim` removes exactly the leading whitespace. |
| `Text.TrimEnd` | src/item/leaderboard.js:110 | The trailing part of `trim` removes exactly the trailing whitespace. |
| `Text.TrimNoSpace` | src/item/leaderboard.js:110 | A string with no whitespace at either end trims to itself. |
| `Text.Utf16Length` | src/item/register.js:30 | `length` counts UTF-16 units: the number of characters plus one more for each character beyond the Basic Multilingual Plane. So it is between the number of characters and twice that, and equal to it when every character is in the plane. |
| `Text.NatToDecimal` | src/ItemSCore.js:39 | A number prints as a non-empty run of digits with no leading zero. |
| `Text.DecimalRoundTrip` | data/DBManager.py:102 | `int()` of a printed number gives the number back. |
| `Text.LessIrreflexive` | src/ViewScore.js:97 | No date is before itself, so `date < filterDate` excludes the cutoff day. |
| `Text.LessTrichotomy` | src/item/leaderboard.js:126 | For any two dates exactly one of `a < b`, `a == b` and `b < a` holds. |
| `Text.LessTransitive` | src/ViewScore.js:97 | String `<` is transitive, so with the two lemmas above it is a strict total order on dates. |
| `Scrape.DigitRun` | data/DBManager.py:99 | `\d+` takes the longest run of digits at the start. |
| `Scrape.MatchKey` | data/DBManager.py:99 | The alternation picks the first key that starts the token and is followed by a digit. There is none iff no key is. |
| `Scrape.KeysExclusive` | data/DBManager.py:99 | At most one of the six keys can start a token, so the alternation order never matters. |
| `Scrape.ParseClassToken` | data/DBManager.py:99-101 | A token gives a detail iff it starts with a class key followed by a digit. The detail is that key and the value of the whole digit run. |
| `Scrape.ClassTokenRoundTrip` | data/raw.py:34-37 | A key, a printed number and a tail that does not continue the digits read back as that key and number. |
| `Scrape.TokenWithSuffix` | data/raw.py:34 | `re.match` anchors only at the start: "zo007x" gives zo with value 7. |
| `Scrape.Put` | data/DBManager.py:102 | Dict assignment: the key now maps to the new value and every other key is unchanged. An existing key keeps its place and a new key is appended. |
| `Scrape.ClassDetails` | data/DBManager.py:97-102 | The details of a row have distinct keys. |
| `Scrape.ClassDetailsLookup` | data/raw.py:32-37 | Each key maps to the value of the row's last token with that key, and only class keys occur. |
| `Scrape.ImageId` | data/DBManager.py:105 | `re.search(r"/([^/]+)\.jpg$")`: a found id is non-empty and slash-free. The URL ends in "/id.jpg", or that followed by one newline, which `$` allows. |
| `Scrape.JpgStem` | data/raw.py:41 | The `\.jpg$` anchor: the URL minus ".jpg" or ".jpg" plus a newline; nothing iff it ends in neither. |
| `Scrape.ImageIdOf` | data/raw.py:41-43 | Every URL ending in "/id.jpg", with or without one newline, with a non-empty slash-free id, yields exactly that id. |
| `Scrape.RowIds` | data/DBManager.py:104-107 | A successful loop gives one id per row, and then every row has an image URL. |
| `Scrape.ParseRows` | data/DBManager.py:95-117 | As written, a successful loop gives one record per row, in row order, each from its row. |
| `Scrape.RowIdsOk` | data/DBManager.py:104-107 | The loop as written succeeds iff every row has an image URL and the first row's URL has a ".jpg" id. |
| `Scrape.RowIdsValues` | data/raw.py:39-43 | A row with a ".jpg" id gets its own id. A row without one keeps the previous row's id, because `img_id` is not reassigned. |
| `Scrape.ParseRowsOk` | data/raw.py:28-53 | The script's loop succeeds under the same condition as `Scrape.RowIdsOk`. |
| `Scrape.ParseRowsRecords` | data/raw.py:39-53 | Each record is under its row's own id, or under the previous record's id when its URL has none. |
| `Scrape.StaleIdReused` | data/DBManager.py:104-110 | A row whose URL has no ".jpg" id, after a row that has one, yields a record under the earlier row's id but with its own URL. |
| `Scrape.PngHasNoId` | data/DBManager.py:105 | "https://img/a.jpg" has id "a", and "https://img/b.png" has none. |
| `Scrape.ParseRowsCorrected` | data/raw.py:39-45 | The corrected loop succeeds iff every row has an image URL, and it gives one record per row that has a ".jpg" id. |
| `Scrape.ParseRowsCorrectedSpec` | data/raw.py:45-53 | Under the corrected loop, the k-th record comes from the k-th row with a ".jpg" id and carries that row's own id. |
| `Scrape.StaleIdDropped` | data/raw.py:42-43 | The two-row example under the corrected loop gives one record, under the first row's id. |
| `Scrape.FetchData` | data/DBManager.py:79-119 | A status other than 200 raises, and a page without the table fails. Otherwise the rows go through the loop as written: one record per row, in row order, each with the row's URL, name, details and the requested dtype. |
| `Scrape.FetchDataCorrected` | data/DBManager.py:79-119 | The same fetch with the corrected loop: the k-th record comes from the k-th row with a ".jpg" id and carries that row's own id. |
| `Scrape.GetData` | data/raw.py:10-55 | The script's fetch returns nothing iff the status is not 200. Otherwise it succeeds iff the `DBManager` fetch does, with the same records. |
| `Scrape.RawOutput` | data/raw.py:59-63 | The output exists iff both pages load and parse. It is the dtype-0 records followed by the dtype-1 records. |
| `Tables.AllDetailRows` | data/DBManager.py:140-154 | Every `details` row written belongs to one of the records. |
| `Tables.InsertScores` | data/DBManager.py:156-162 | `INSERT OR IGNORE` with 0: every existing score row is kept as it was, and each new id gets a row with score 0. |
| `Tables.UpdateData` | data/DBManager.py:121-165 | A failed fetch leaves the database alone. So does a repeated id, which breaks the `items` primary key before the commit. Otherwise `items` and `details` are replaced by the records in order, scores are kept and added for new ids, and `users` and `user_gacha` are untouched. |
| `Tables.Refresh` | data/DBManager.py:124-129 | After a successful refresh, the first page's items carry dtype 0 and come before the second page's, which carry dtype 1. |
| `Tables.GroupDetails` | data/DBManager.py:182-185 | `details_dict` has an id iff some `details` row has it, and each id's dict is read from that id's rows. |
| `Tables.DetailsOfAbsent` | data/DBManager.py:195 | An id without `details` rows has the empty dict. |
| `Tables.FetchItems` | data/DBManager.py:167-200 | One item per `items` row, in table order, with the row's fields and its id's details, or `{}` when there are none. |
| `Tables.DetailsOfRowsFor` | data/DBManager.py:183-185 | The rows written for a dict read back as that dict. |
| `Tables.DetailsOfAllRows` | data/DBManager.py:140-154 | With distinct ids, reading back the rows of all records gives each record its own details. |
| `Tables.FetchAfterUpdate` | data/DBManager.py:167-200 | Reading the catalogue right after a successful `update_data` gives back exactly the scraped records, in order. |
| `Tables.DatabaseMatchesOutput` | data/raw.py:59-67 | When the database refresh succeeds, the script's `output.json` holds the same items that `fetch_items` returns. |
| `Tables.StaleIdBreaksRefresh` | data/DBManager.py:140-146 | As written, a refresh whose first page has a ".png" row after a ".jpg" row repeats an id and fails with an integrity error. |
| `Tables.StaleIdDroppedRefresh` | data/DBManager.py:121-146 | With the corrected loop the same page gives one item, under the ".jpg" row's id, and `update_data` goes through. |
| `Tables.RepeatedIdFails` | data/DBManager.py:141-146 | Any two records with one id make `update_data` fail. |
| `Tables.SetScores` | data/DBManager.py:216-221 | The listed ids that have a score row get the new score, and rows for other ids stay. |
| `Tables.UpdateScores` | data/DBManager.py:202-224 | Listed ids with a row hold the new score. Every other row that held it is NULL, and every remaining row and table is unchanged. |
| `Tables.ScoreHolders` | data/DBManager.py:207-221 | Afterwards the new score is held by exactly the listed ids that have a score row. |
| `Tables.UpdateScoresIdempotent` | data/DBManager.py:202-224 | Repeating `update_scores` with the same arguments changes nothing. |
| `Tables.UpdateUserGacha` | data/DBManager.py:226-248 | Only `user_gacha` changes. |
| `Tables.UpdateUserGachaRows` | data/DBManager.py:231-245 | The user's rows for the date are exactly the new ones, and every other row is the one that was there, in the same order. |
| `Tables.UpdateUserGachaIdempotent` | data/DBManager.py:226-248 | Repeating `update_user_gacha` with the same arguments changes nothing. |
| `Tables.ClearedCatalogIsEmpty` | data/DBManager.py:255-257 | After `clear_data` the catalogue reads back empty, and `update_scores` has no rows to set. |
| `Tables.RefreshAfterClear` | data/DBManager.py:156-162 | A refresh right after `clear_data` gives every scraped item a score row holding 0, and no user or submission rows. |

## Left out

- HTML parsing is not modelled: BeautifulSoup, the table `div` and the row
  selection by class `ca1`, `get1` or `get2` (`data/DBManager.py:83-92`,
  `data/raw.py:15-24`). A page is given as its status and its selected rows. A
  missing table is a failure.
- The network is not modelled: `requests`, `fetch` and `axios`. Each answer is
  a parameter, and so is each HTTP status.
- `Promise.all` is not modelled. A batch of answers is a sequence of results.
- Console logging is not modelled.
- In the scraper, `\d` is taken as the ASCII digits only; Python also matches
  other Unicode digits.
- A missing `data-col1` attribute (Python `None`) is not distinguished from a
  name.
- `_initialize_db` and the foreign keys are not modelled. The tables start as
  given. Of the constraints, only the `items` primary key is checked.
- SQL `date()` normalisation is not modelled. Dates reach `update_user_gacha`
  already normalised.
- `SELECT` is assumed to return rows in insertion order.
- `raw.py` writing `output.json` to disk is not modelled; the file's contents
  are the records.
- A `dtype` other than 0 or 1 in `raw.py`, which leaves `target_div` unbound,
  is not modelled.
- Calendar arithmetic is not modelled: JavaScript `Date`, `setDate` and
  `toISOString`, with their time-zone and daylight-saving effects. The
  leaderboard's days are integers.
- The leaderboard's first feed row of a uid is always found when its colour is
  picked, so the fallback hue (`src/item/leaderboard.js:327-329`) is not
  modelled.
- HSL string formatting is not modelled; only the integer hue is.
- Chart.js, the DOM tooltip handlers, JSX layout and the item card component
  are not modelled.
- `Text.Less` compares code points, while JavaScript compares UTF-16 units. The
  two orders agree on the ASCII `YYYY-MM-DD` dates the pages compare.
- `btoa(JSON.stringify(...))` and `JSON.parse(atob(...))` are not modelled as
  code. They are an abstract `Session.Codec` whose failures are `None`.
- The initial `Update.js` and `ItemSCore.js` fetch of `/output.json` is not
  modelled: the catalogue is a parameter.
- Numbers in replies are integers; fractional uids are not modelled.
- Notes on the front end that are not bugs:
  - the score-pool page reads its first basket from key "15" even when another
    key is chosen (`Basket.OnScoreListLoaded`);
  - the history page's `?.date` treats an empty cutoff as "loading", as the
    leaderboard's `or null` treats it as "no cutoff";
  - the admin page's error line under the form can never show
    (`DateManager.InlineErrorNeverShown`).
- DailyChart.Series: the contract states only the length. The running-total
  value of each point is `DailyChart.SeriesIsRunningTotal`.
- UserItems.LookupIds: the contract is an upper bound. The exact list, for
  any mix of known and unknown pieces, is `UserItems.LookupFiltered`.
- Catalog.FindAll: the contract is an upper bound. The exact list, for any
  mix of known and unknown ids, is `Catalog.FindAllFiltered`.
- The leaderboard's fetch effect re-runs are not modelled. Each merge returns
  a new object and the effect depends on it, so the effect runs again after
  every batch. A user whose request fails stays pending
  (`UserItems.FailedUidStaysPending`), so a user whose request always fails is
  requested again after every batch, without bound.
- The daily feed's uid is a string, as the user record has it. A numeric uid,
  for which `Array.from` gives no characters and the colour hash is 0, is not
  modelled.

## Findings

| source | as written | input that shows it | evidently intended | confidence | as-written member | corrected member |
|---|---|---|---|---|---|---|
| src/item/register.js:54 | `data.uid !== 0` compares against the number 0 | the register reply `{"uid": "0"}` | the login pages' string test `!== "0"` (`src/item/login.js:15`), which refuses "0" | not executed | `Register.StringZeroRedirectsAsWritten` | `Register.StringZeroRejected` |
| src/item/login.js:17 | `onLoginSuccess(data.uid)` passes no credentials, so `handleLoginSuccess` never stores one and the next load clears the session (`src/LoginAndUpdate.js:20-24`) | a fresh browser logs in with an accepted uid, then reloads | pass `{ username, password }` so the session survives a reload | not executed | `Session.ReloadForgetsLogin` | `Session.ReloadKeepsLogin` |
| src/ItemSCore.js:65-67 | `selectedKeys.map(key => allItems.find(...))` leaves `undefined` for an unknown id, and the item card reads its fields | basket ["32"] with a catalogue that has no item "32", or is still empty | leave out ids with no catalogue item | not executed | `Basket.ResolveLeavesHole` | `Basket.ResolveKnownIsFound` |
| data/DBManager.py:104-107 | `img_id` is assigned only when the URL matches, so a non-".jpg" row reuses the previous row's id | rows with URLs "https://img/a.jpg" then "https://img/b.png" | a row without a ".jpg" id gives no record (or its own id) | not executed | `Scrape.StaleIdReused` | `Scrape.ParseRowsCorrectedSpec` |
| src/ItemSCore.js:104-106 | the reply's basket is read under `selectedKey` as captured when the request was sent | choose key A, submit, choose key B before the reply arrives, with different entries for A and B in the reply | read the basket under the key chosen when the reply arrives, as the comment on line 106 says | not executed | `Basket.StaleKeyReply` | `Basket.OnSubmitReplyCorrected` |
