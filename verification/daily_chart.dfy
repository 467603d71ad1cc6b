/** The cumulative daily-score chart of the leaderboard page: one line per
    user, one point per calendar day between the first and the last scored
    day, and a colour per line derived from the uid and the line's index. */
module DailyChart {
  import Seqs
  import opened Leaderboard

  /** One value of `new Map(dailyScores.map(...)).values()`. */
  datatype UserEntry = UserEntry(uid: string, name: string)

  function EntryUid(e: UserEntry): string
  {
    e.uid
  }

  function EntryUids(entries: seq<UserEntry>): (r: seq<string>)
    ensures |r| == |entries| && forall i :: 0 <= i < |r| ==> r[i] == entries[i].uid
  {
    seq(|entries|, i requires 0 <= i < |entries| => entries[i].uid)
  }

  /** `map.set(uid, {uid, name})`: a key already present keeps its position
      and takes the new value; a new key goes at the end. */
  function Upsert(entries: seq<UserEntry>, uid: string, name: string): (r: seq<UserEntry>)
    requires Seqs.Distinct(EntryUids(entries))
    ensures uid in EntryUids(entries) ==> EntryUids(r) == EntryUids(entries)
    ensures uid !in EntryUids(entries) ==> r == entries + [UserEntry(uid, name)]
    ensures forall i :: 0 <= i < |r| && r[i].uid == uid ==> r[i].name == name
    ensures forall i :: 0 <= i < |r| && r[i].uid != uid ==> i < |entries| && r[i] == entries[i]
  {
    var k := Seqs.FirstIndex(entries, EntryUid, uid);
    if k < |entries| then
      assert EntryUids(entries)[k] == uid;
      assert forall i :: 0 <= i < |entries| && i != k ==> entries[i].uid != uid by {
        forall i | 0 <= i < |entries| && i != k ensures entries[i].uid != uid {
          assert EntryUids(entries)[i] == entries[i].uid;
        }
      }
      entries[k := UserEntry(uid, name)]
    else
      assert uid !in EntryUids(entries) by {
        forall i | 0 <= i < |entries| ensures EntryUids(entries)[i] != uid {
          assert EntryUid(entries[i]) != uid;
        }
      }
      entries + [UserEntry(uid, name)]
  }

  /** Row `k` is the last row of user `uid`. */
  predicate IsLastRow(daily: seq<DailyScore>, uid: string, k: int)
  {
    0 <= k < |daily| && daily[k].uid == uid && forall j :: k < j < |daily| ==> daily[j].uid != uid
  }

  /** `userEntries`: one entry per distinct uid, in order of first
      appearance. */
  function UserEntries(daily: seq<DailyScore>): (r: seq<UserEntry>)
    ensures EntryUids(r) == UniqueUids(daily)
  {
    if |daily| == 0 then []
    else
      var p, x := daily[..|daily| - 1], daily[|daily| - 1];
      var m := UserEntries(p);
      UniqueUidsAppend(daily);
      Upsert(m, x.uid, x.name)
  }

  /** Each entry carries the name of its user's LAST row: the map keeps the
      first position of a uid but the latest value. */
  lemma {:induction false} UserEntriesNames(daily: seq<DailyScore>)
    ensures forall i, k :: 0 <= i < |UserEntries(daily)| && IsLastRow(daily, UserEntries(daily)[i].uid, k) ==>
      UserEntries(daily)[i].name == daily[k].name
  {
    if |daily| > 0 {
      var p, x := daily[..|daily| - 1], daily[|daily| - 1];
      var m := UserEntries(p);
      var r := UserEntries(daily);
      UserEntriesNames(p);
      assert r == Upsert(m, x.uid, x.name);
      forall i, k | 0 <= i < |r| && IsLastRow(daily, r[i].uid, k)
        ensures r[i].name == daily[k].name
      {
        if r[i].uid != x.uid {
          assert k < |p| && p[k] == daily[k];
          assert IsLastRow(p, m[i].uid, k);
        } else {
          assert k == |daily| - 1;
        }
      }
    }
  }

  /** Some row is on `day`. */
  predicate Observed(daily: seq<DailyScore>, day: int)
  {
    exists k :: 0 <= k < |daily| && daily[k].day == day
  }

  function MinDay(daily: seq<DailyScore>): (d: int)
    requires |daily| > 0
    ensures Observed(daily, d)
    ensures forall k :: 0 <= k < |daily| ==> d <= daily[k].day
  {
    if |daily| == 1 then daily[0].day
    else
      var m := MinDay(daily[1..]);
      assert forall k :: 1 <= k < |daily| ==> daily[1..][k - 1] == daily[k];
      if daily[0].day <= m then daily[0].day else m
  }

  function MaxDay(daily: seq<DailyScore>): (d: int)
    requires |daily| > 0
    ensures Observed(daily, d)
    ensures forall k :: 0 <= k < |daily| ==> daily[k].day <= d
  {
    if |daily| == 1 then daily[0].day
    else
      var m := MaxDay(daily[1..]);
      assert forall k :: 1 <= k < |daily| ==> daily[1..][k - 1] == daily[k];
      if daily[0].day >= m then daily[0].day else m
  }

  /** The days `lo`, `lo + 1`, ..., `hi`. */
  function Range(lo: int, hi: int): (r: seq<int>)
    ensures |r| == if lo <= hi then hi - lo + 1 else 0
    ensures forall i :: 0 <= i < |r| ==> r[i] == lo + i
    decreases hi - lo
  {
    if lo > hi then [] else [lo] + Range(lo + 1, hi)
  }

  /** `allDates`: every calendar day from the earliest to the latest scored
      day, with no gap; nothing when there are no scores. */
  function AllDates(daily: seq<DailyScore>): (r: seq<int>)
    ensures r == [] <==> |daily| == 0
    ensures forall i :: 0 <= i < |r| - 1 ==> r[i + 1] == r[i] + 1
    ensures forall k :: 0 <= k < |daily| ==> daily[k].day in r
    ensures |r| > 0 ==> Observed(daily, r[0]) && Observed(daily, r[|r| - 1])
  {
    if |daily| == 0 then []
    else
      var lo, hi := MinDay(daily), MaxDay(daily);
      var r := Range(lo, hi);
      assert forall k :: 0 <= k < |daily| ==> daily[k].day in r by {
        forall k | 0 <= k < |daily| ensures daily[k].day in r {
          assert r[daily[k].day - lo] == daily[k].day;
        }
      }
      r
  }

  /** Consecutive days never repeat. */
  lemma AllDatesDistinct(daily: seq<DailyScore>)
    ensures Seqs.Distinct(AllDates(daily))
  {
    var r := AllDates(daily);
    forall i, j | 0 <= i < j < |r| ensures r[i] != r[j] {
      assert r[j] == r[0] + j && r[i] == r[0] + i by {
        ConsecutiveIndex(r, i);
        ConsecutiveIndex(r, j);
      }
    }
  }

  lemma {:induction false} ConsecutiveIndex(r: seq<int>, i: int)
    requires forall a :: 0 <= a < |r| - 1 ==> r[a + 1] == r[a] + 1
    requires 0 <= i < |r|
    ensures r[i] == r[0] + i
  {
    if i > 0 {
      ConsecutiveIndex(r, i - 1);
    }
  }

  /** Row `k` is the last row of user `uid` on `day`. */
  predicate IsLastRowOn(daily: seq<DailyScore>, uid: string, day: int, k: int)
  {
    && 0 <= k < |daily| && daily[k].uid == uid && daily[k].day == day
    && forall j :: k < j < |daily| ==> !(daily[j].uid == uid && daily[j].day == day)
  }

  /** `scoreMap[date] || 0` for the user's score map built by
      `Object.fromEntries`: the score of the user's last row on that day,
      and 0 when the user has no row on it. */
  function ScoreOn(daily: seq<DailyScore>, uid: string, day: int): (s: int)
    ensures (forall k :: 0 <= k < |daily| ==> !(daily[k].uid == uid && daily[k].day == day)) ==> s == 0
    ensures forall k :: IsLastRowOn(daily, uid, day, k) ==> s == daily[k].score
  {
    if |daily| == 0 then 0
    else
      var p, x := daily[..|daily| - 1], daily[|daily| - 1];
      if x.uid == uid && x.day == day then
        assert forall k :: IsLastRowOn(daily, uid, day, k) ==> k == |daily| - 1;
        x.score
      else
        LastRowOnPrefix(daily, uid, day);
        ScoreOn(p, uid, day)
  }

  /** Without the last row, when it is not on that day: the rows before it
      keep their last-row status and their absence. */
  lemma LastRowOnPrefix(daily: seq<DailyScore>, uid: string, day: int)
    requires |daily| > 0
    requires !(daily[|daily| - 1].uid == uid && daily[|daily| - 1].day == day)
    ensures forall k :: IsLastRowOn(daily, uid, day, k) ==> IsLastRowOn(daily[..|daily| - 1], uid, day, k)
    ensures NoRowOn(daily, uid, day) ==> NoRowOn(daily[..|daily| - 1], uid, day)
  {
  }

  /** The user has no row on that day. */
  predicate NoRowOn(daily: seq<DailyScore>, uid: string, day: int)
  {
    forall k :: 0 <= k < |daily| ==> !(daily[k].uid == uid && daily[k].day == day)
  }

  /** The user's line: the running total of `ScoreOn` over `dates`. */
  function Series(daily: seq<DailyScore>, uid: string, dates: seq<int>): (r: seq<int>)
    ensures |r| == |dates|
  {
    if |dates| == 0 then []
    else
      var prev := Series(daily, uid, dates[..|dates| - 1]);
      var base := if |prev| == 0 then 0 else prev[|prev| - 1];
      prev + [base + ScoreOn(daily, uid, dates[|dates| - 1])]
  }

  /** The sum of the user's scores over `dates`. */
  function DateSum(daily: seq<DailyScore>, uid: string, dates: seq<int>): int
  {
    if |dates| == 0 then 0
    else DateSum(daily, uid, dates[..|dates| - 1]) + ScoreOn(daily, uid, dates[|dates| - 1])
  }

  /** Every point of a line is the total of the user's scores up to and
      including that day. */
  lemma {:induction false} SeriesIsRunningTotal(daily: seq<DailyScore>, uid: string, dates: seq<int>)
    ensures forall i :: 0 <= i < |dates| ==> Series(daily, uid, dates)[i] == DateSum(daily, uid, dates[..i + 1])
  {
    if |dates| > 0 {
      var p := dates[..|dates| - 1];
      SeriesIsRunningTotal(daily, uid, p);
      forall i | 0 <= i < |dates|
        ensures Series(daily, uid, dates)[i] == DateSum(daily, uid, dates[..i + 1])
      {
        if i < |p| {
          assert p[..i + 1] == dates[..i + 1];
        } else {
          assert dates[..i + 1] == dates;
          if |p| > 0 {
            assert p[..|p|] == p;
          }
        }
      }
    }
  }

  /** A user whose scores are never negative has a non-decreasing line. */
  lemma SeriesMonotone(daily: seq<DailyScore>, uid: string, dates: seq<int>, i: int, j: int)
    requires forall k :: 0 <= k < |daily| ==> daily[k].score >= 0
    requires 0 <= i <= j < |dates|
    ensures Series(daily, uid, dates)[i] <= Series(daily, uid, dates)[j]
  {
    SeriesIsRunningTotal(daily, uid, dates);
    DateSumGrows(daily, uid, dates[..j + 1], i + 1);
    assert dates[..j + 1][..i + 1] == dates[..i + 1];
  }

  lemma {:induction false} DateSumGrows(daily: seq<DailyScore>, uid: string, dates: seq<int>, n: int)
    requires forall k :: 0 <= k < |daily| ==> daily[k].score >= 0
    requires 0 <= n <= |dates|
    ensures DateSum(daily, uid, dates[..n]) <= DateSum(daily, uid, dates)
  {
    if n < |dates| {
      var p := dates[..|dates| - 1];
      assert dates[..n] == p[..n];
      DateSumGrows(daily, uid, p, n);
      ScoreOnNonNegative(daily, uid, dates[|dates| - 1]);
    } else {
      assert dates[..n] == dates;
    }
  }

  lemma {:induction false} ScoreOnNonNegative(daily: seq<DailyScore>, uid: string, day: int)
    requires forall k :: 0 <= k < |daily| ==> daily[k].score >= 0
    ensures ScoreOn(daily, uid, day) >= 0
  {
    if |daily| > 0 {
      var p := daily[..|daily| - 1];
      assert forall k :: 0 <= k < |p| ==> p[k] == daily[k];
      ScoreOnNonNegative(p, uid, day);
    }
  }

  /** The sum of the scores of all rows of a user. */
  function UserTotal(daily: seq<DailyScore>, uid: string): int
  {
    if |daily| == 0 then 0
    else
      var x := daily[|daily| - 1];
      UserTotal(daily[..|daily| - 1], uid) + (if x.uid == uid then x.score else 0)
  }

  /** No user has two rows on the same day. */
  predicate OneRowPerUserDay(daily: seq<DailyScore>)
  {
    forall a, b :: 0 <= a < b < |daily| ==> !(daily[a].uid == daily[b].uid && daily[a].day == daily[b].day)
  }

  /** Adding one row adds its score to its own user and day. */
  lemma ScoreOnAddRow(p: seq<DailyScore>, x: DailyScore, uid: string, day: int)
    requires ScoreOn(p, x.uid, x.day) == 0
    ensures ScoreOn(p + [x], uid, day) ==
      ScoreOn(p, uid, day) + (if x.uid == uid && x.day == day then x.score else 0)
  {
    assert (p + [x])[..|p|] == p;
  }

  /** Adding one row to the data adds its score on its own day and nothing
      elsewhere. */
  lemma {:induction false} DateSumAddRow(p: seq<DailyScore>, x: DailyScore, uid: string, dates: seq<int>)
    requires ScoreOn(p, x.uid, x.day) == 0
    requires Seqs.Distinct(dates)
    ensures DateSum(p + [x], uid, dates) ==
      DateSum(p, uid, dates) + (if x.uid == uid && x.day in dates then x.score else 0)
  {
    if |dates| > 0 {
      var q, d := dates[..|dates| - 1], dates[|dates| - 1];
      DistinctPrefix(dates);
      DateSumAddRow(p, x, uid, q);
      ScoreOnAddRow(p, x, uid, d);
      var bonus := if x.uid == uid && x.day in q then x.score else 0;
      var here := if x.uid == uid && x.day == d then x.score else 0;
      assert DateSum(p + [x], uid, dates) == DateSum(p + [x], uid, q) + ScoreOn(p + [x], uid, d);
      assert DateSum(p, uid, dates) == DateSum(p, uid, q) + ScoreOn(p, uid, d);
      assert DateSum(p + [x], uid, dates) == DateSum(p, uid, dates) + bonus + here;
      InPrefixOrLast(dates, x.day);
    }
  }

  /** A value is in a sequence of distinct values when it is in the prefix
      or is the last element, and never both. */
  lemma InPrefixOrLast(dates: seq<int>, v: int)
    requires |dates| > 0 && Seqs.Distinct(dates)
    ensures v in dates <==> v in dates[..|dates| - 1] || v == dates[|dates| - 1]
    ensures !(v in dates[..|dates| - 1] && v == dates[|dates| - 1])
  {
    LastNotInPrefix(dates);
    assert dates == dates[..|dates| - 1] + [dates[|dates| - 1]];
  }

  lemma DistinctPrefix(dates: seq<int>)
    requires |dates| > 0 && Seqs.Distinct(dates)
    ensures Seqs.Distinct(dates[..|dates| - 1])
  {
    var q := dates[..|dates| - 1];
    forall i, j | 0 <= i < j < |q| ensures q[i] != q[j] {
      assert q[i] == dates[i] && q[j] == dates[j];
    }
  }

  lemma LastNotInPrefix(dates: seq<int>)
    requires |dates| > 0 && Seqs.Distinct(dates)
    ensures dates[|dates| - 1] !in dates[..|dates| - 1]
  {
    var q := dates[..|dates| - 1];
    forall i | 0 <= i < |q| ensures q[i] != dates[|dates| - 1] {
      assert q[i] == dates[i];
    }
  }

  /** A row that is not the only one of its user on its day. */
  lemma NoEarlierRowOnDay(daily: seq<DailyScore>)
    requires |daily| > 0 && OneRowPerUserDay(daily)
    ensures var x := daily[|daily| - 1]; ScoreOn(daily[..|daily| - 1], x.uid, x.day) == 0
  {
    var p, x := daily[..|daily| - 1], daily[|daily| - 1];
    forall k | 0 <= k < |p| ensures !(p[k].uid == x.uid && p[k].day == x.day) {
      assert p[k] == daily[k];
    }
  }

  /** When no user scores twice on one day and the chart's days cover every
      scored day, the last point of a user's line is the user's total
      daily score. */
  lemma {:induction false} SeriesEndsAtTotal(daily: seq<DailyScore>, uid: string, dates: seq<int>)
    requires OneRowPerUserDay(daily)
    requires Seqs.Distinct(dates)
    requires forall k :: 0 <= k < |daily| ==> daily[k].day in dates
    ensures DateSum(daily, uid, dates) == UserTotal(daily, uid)
  {
    if |daily| == 0 {
      ZeroSum(uid, dates);
    } else {
      var p, x := daily[..|daily| - 1], daily[|daily| - 1];
      assert daily == p + [x];
      assert OneRowPerUserDay(p) by {
        forall a, b | 0 <= a < b < |p| ensures !(p[a].uid == p[b].uid && p[a].day == p[b].day) {
          assert p[a] == daily[a] && p[b] == daily[b];
        }
      }
      assert forall k :: 0 <= k < |p| ==> p[k].day in dates by {
        forall k | 0 <= k < |p| ensures p[k].day in dates {
          assert p[k] == daily[k];
        }
      }
      SeriesEndsAtTotal(p, uid, dates);
      NoEarlierRowOnDay(daily);
      DateSumAddRow(p, x, uid, dates);
    }
  }

  lemma {:induction false} ZeroSum(uid: string, dates: seq<int>)
    ensures DateSum([], uid, dates) == 0
  {
    if |dates| > 0 {
      ZeroSum(uid, dates[..|dates| - 1]);
    }
  }

  /** `dailyScoresByUser`: one line per user entry, over all chart days. */
  function ChartLines(daily: seq<DailyScore>): (r: seq<seq<int>>)
    ensures |r| == |UniqueUids(daily)|
    ensures forall i :: 0 <= i < |r| ==> |r[i]| == |AllDates(daily)|
    ensures forall i :: 0 <= i < |r| ==> r[i] == Series(daily, UniqueUids(daily)[i], AllDates(daily))
  {
    var users := UserEntries(daily);
    assert forall i :: 0 <= i < |users| ==> users[i].uid == UniqueUids(daily)[i] by {
      forall i | 0 <= i < |users| ensures users[i].uid == UniqueUids(daily)[i] {
        assert EntryUids(users)[i] == users[i].uid;
      }
    }
    seq(|users|, i requires 0 <= i < |users| => Series(daily, users[i].uid, AllDates(daily)))
  }

  /** The last point of every line is its user's total, when no user has two
      rows on one day. */
  lemma ChartLineEndsAtTotal(daily: seq<DailyScore>, i: int)
    requires OneRowPerUserDay(daily)
    requires 0 <= i < |ChartLines(daily)| && |daily| > 0
    ensures ChartLines(daily)[i][|AllDates(daily)| - 1] == UserTotal(daily, UniqueUids(daily)[i])
  {
    var dates := AllDates(daily);
    var users := UserEntries(daily);
    var uid := UniqueUids(daily)[i];
    assert users[i].uid == uid by {
      assert EntryUids(users)[i] == users[i].uid;
    }
    assert ChartLines(daily)[i] == Series(daily, uid, dates);
    AllDatesDistinct(daily);
    SeriesIsRunningTotal(daily, uid, dates);
    assert dates[..|dates|] == dates;
    SeriesEndsAtTotal(daily, uid, dates);
  }

  /** The `cumulative += ...` loop that builds one line. */
  method CumulativeSeries(daily: seq<DailyScore>, uid: string, dates: seq<int>) returns (line: seq<int>)
    ensures line == Series(daily, uid, dates)
  {
    var cumulative := 0;
    line := [];
    var i := 0;
    while i < |dates|
      invariant 0 <= i <= |dates|
      invariant line == Series(daily, uid, dates[..i])
      invariant cumulative == if i == 0 then 0 else line[i - 1]
    {
      cumulative := cumulative + ScoreOn(daily, uid, dates[i]);
      SeriesStep(daily, uid, dates, i, line, cumulative);
      line := line + [cumulative];
      i := i + 1;
    }
    assert dates[..|dates|] == dates;
  }

  /** One more date extends the line by the previous total plus that
      date's score. */
  lemma SeriesStep(daily: seq<DailyScore>, uid: string, dates: seq<int>, i: int, prev: seq<int>, total: int)
    requires 0 <= i < |dates| && prev == Series(daily, uid, dates[..i])
    requires total == (if i == 0 then 0 else prev[i - 1]) + ScoreOn(daily, uid, dates[i])
    ensures Series(daily, uid, dates[..i + 1]) == prev + [total]
  {
    assert dates[..i + 1][..i] == dates[..i];
  }

  /** `char.charCodeAt(0)` of one character of `Array.from(uid)`: the code
      point itself inside the Basic Multilingual Plane, its high surrogate
      beyond it. */
  function CharCode(c: char): (n: int)
    ensures 0 <= n < 0x1_0000
    ensures (c as int) < 0x1_0000 ==> n == c as int
  {
    if (c as int) < 0x1_0000 then c as int else 0xD800 + (c as int - 0x1_0000) / 0x400
  }

  /** The hash of `uidToColor`: the sum of the character codes of the
      uid, which the daily feed carries as a string. */
  function CodeSum(s: string): (n: nat)
  {
    if |s| == 0 then 0 else CodeSum(s[..|s| - 1]) + CharCode(s[|s| - 1])
  }

  /** The hue of line `index`: `(hash + index * 137) % 360`. */
  function Hue(uid: string, index: nat): (h: int)
    ensures 0 <= h < 360
  {
    (CodeSum(uid) + index * 137) % 360
  }

  /** 137 is invertible modulo 360 (137 * 113 = 43 * 360 + 1), so no
      multiple of 137 by fewer than 360 steps is a multiple of 360. */
  lemma NoSmallMultiple(d: int, q: int)
    requires 0 < d < 360
    ensures 137 * d != 360 * q
  {
  }

  /** Two lines whose uids have the same code sum get different hues when
      their indices are fewer than 360 apart. */
  lemma HueSeparatesIndices(a: string, b: string, i: nat, j: nat)
    requires CodeSum(a) == CodeSum(b)
    requires i < j < i + 360
    ensures Hue(a, i) != Hue(b, j)
  {
    var h := CodeSum(a);
    var x, y := h + i * 137, h + j * 137;
    if x % 360 == y % 360 {
      assert y - x == 137 * (j - i);
      assert y - x == 360 * (y / 360 - x / 360);
      NoSmallMultiple(j - i, y / 360 - x / 360);
    }
  }
}
