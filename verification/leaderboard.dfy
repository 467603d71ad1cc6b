/** The feeds of the leaderboard page and its total-score ranking. */
module Leaderboard {
  import Seqs

  /** One row of the total-score feed. */
  datatype UserScore = UserScore(uid: string, name: string, totalScore: int)

  /** One row of the daily-score feed. The `YYYY-MM-DD` date is represented
      by its day number, so consecutive calendar days are consecutive
      integers. */
  datatype DailyScore = DailyScore(uid: string, name: string, day: int, score: int)

  /** `dailyScores.map((score) => score.uid)`. */
  function Uids(daily: seq<DailyScore>): (r: seq<string>)
    ensures |r| == |daily| && forall i :: 0 <= i < |r| ==> r[i] == daily[i].uid
  {
    seq(|daily|, i requires 0 <= i < |daily| => daily[i].uid)
  }

  function SameUid(uid: string): string
  {
    uid
  }

  /** `Array.from(new Set(uids))`: every uid of the daily feed once. */
  function UniqueUids(daily: seq<DailyScore>): (r: seq<string>)
    ensures Seqs.Distinct(r)
    ensures forall uid :: uid in r <==> uid in Uids(daily)
  {
    var u := Uids(daily);
    Seqs.DedupByFirstOccurrences(u, SameUid);
    var r := Seqs.DedupBy(u, SameUid);
    assert forall uid :: uid in u ==> uid in r by {
      forall uid | uid in u ensures uid in r {
        var i :| 0 <= i < |u| && u[i] == uid;
        assert Seqs.HasKey(r, SameUid, SameUid(u[i]));
      }
    }
    assert forall uid :: uid in r ==> uid in u by {
      forall uid | uid in r ensures uid in u {
        var j :| 0 <= j < |r| && r[j] == uid;
        assert u[Seqs.FirstIndex(u, SameUid, SameUid(r[j]))] == r[j];
      }
    }
    r
  }

  /** The uids are listed in order of first appearance. */
  lemma UniqueUidsFirstOccurrences(daily: seq<DailyScore>)
    ensures Seqs.FirstOccurrences(UniqueUids(daily), Uids(daily), SameUid)
  {
    Seqs.DedupByFirstOccurrences(Uids(daily), SameUid);
  }

  /** One more row of the daily feed adds its uid at the end when it is
      new and changes nothing otherwise. */
  lemma UniqueUidsAppend(daily: seq<DailyScore>)
    requires |daily| > 0
    ensures var p, x := daily[..|daily| - 1], daily[|daily| - 1];
      UniqueUids(daily) == if x.uid in UniqueUids(p) then UniqueUids(p) else UniqueUids(p) + [x.uid]
  {
    var p, x := daily[..|daily| - 1], daily[|daily| - 1];
    assert Uids(daily) == Uids(p) + [x.uid];
    Seqs.DedupByAppend(Uids(p), x.uid, SameUid);
    var r := Seqs.DedupBy(Uids(p), SameUid);
    if x.uid in r {
      var i :| 0 <= i < |r| && r[i] == x.uid;
      assert SameUid(r[i]) == x.uid;
    }
  }

  /** Inserts `x` before the first row whose total does not exceed its own,
      so `x` precedes every later row with an equal total. */
  function Insert(x: UserScore, t: seq<UserScore>): (r: seq<UserScore>)
    ensures multiset(r) == multiset(t) + multiset{x}
    ensures |r| == |t| + 1
  {
    if |t| == 0 then [x]
    else if t[0].totalScore <= x.totalScore then [x] + t
    else
      assert t == [t[0]] + t[1..];
      [t[0]] + Insert(x, t[1..])
  }

  predicate NonIncreasing(s: seq<UserScore>)
  {
    forall i, j :: 0 <= i < j < |s| ==> s[i].totalScore >= s[j].totalScore
  }

  lemma {:induction false} InsertSorted(x: UserScore, t: seq<UserScore>)
    requires NonIncreasing(t)
    ensures NonIncreasing(Insert(x, t))
    ensures |t| > 0 ==> Insert(x, t)[0].totalScore == if t[0].totalScore <= x.totalScore then x.totalScore else t[0].totalScore
  {
    if |t| > 0 && t[0].totalScore > x.totalScore {
      InsertSorted(x, t[1..]);
      var r := Insert(x, t);
      assert r == [t[0]] + Insert(x, t[1..]);
      forall i | 1 <= i < |r|
        ensures r[0].totalScore >= r[i].totalScore
      {
        var m := Insert(x, t[1..]);
        assert r[i] in m;
        assert m[i - 1] == r[i];
        assert multiset(m) == multiset(t[1..]) + multiset{x};
        assert r[i] in multiset(m);
        assert r[i] == x || r[i] in t[1..];
      }
    }
  }

  /** `data.sort((a, b) => b.total_score - a.total_score)`: the rows ordered
      by total, highest first. JavaScript's sort is stable, so rows with
      equal totals keep their feed order; an insertion sort is the unique
      stable sort for this comparison. */
  function SortByTotal(s: seq<UserScore>): (r: seq<UserScore>)
    ensures NonIncreasing(r)
    ensures multiset(r) == multiset(s)
  {
    if |s| == 0 then []
    else
      assert s == [s[0]] + s[1..];
      var t := SortByTotal(s[1..]);
      InsertSorted(s[0], t);
      Insert(s[0], t)
  }

  /** Rows with total `k`. */
  function WithTotal(k: int): UserScore -> bool
  {
    (u: UserScore) => u.totalScore == k
  }

  /** Inserting `x` puts it ahead of every row with its own total. */
  lemma {:induction false} InsertFilter(x: UserScore, t: seq<UserScore>, k: int)
    ensures Seqs.Filter(Insert(x, t), WithTotal(k)) ==
      (if x.totalScore == k then [x] else []) + Seqs.Filter(t, WithTotal(k))
    decreases |t|, 1
  {
    var p := WithTotal(k);
    if |t| == 0 {
      Seqs.FilterCons(x, [], p);
    } else if t[0].totalScore <= x.totalScore {
      Seqs.FilterCons(x, t, p);
    } else {
      InsertFilterSkip(x, t, k);
    }
  }

  lemma {:induction false} InsertFilterSkip(x: UserScore, t: seq<UserScore>, k: int)
    requires |t| > 0 && t[0].totalScore > x.totalScore
    ensures Seqs.Filter(Insert(x, t), WithTotal(k)) ==
      (if x.totalScore == k then [x] else []) + Seqs.Filter(t, WithTotal(k))
    decreases |t|, 0
  {
    var p := WithTotal(k);
    var t0, t1 := t[0], t[1..];
    var m := Insert(x, t1);
    assert Insert(x, t) == [t0] + m;
    var a: seq<UserScore> := if p(t0) then [t0] else [];
    var b: seq<UserScore> := if p(x) then [x] else [];
    var f := Seqs.Filter(t1, p);
    InsertFilter(x, t1, k);
    Seqs.FilterCons(t0, m, p);
    assert t == [t0] + t1;
    Seqs.FilterCons(t0, t1, p);
    assert a == [] || b == [];
    SwapEmpty(a, b, f);
  }

  /** Two parts of which one is empty can be swapped. */
  lemma SwapEmpty<T>(a: seq<T>, b: seq<T>, f: seq<T>)
    requires a == [] || b == []
    ensures a + (b + f) == b + (a + f)
  {
    if a == [] {
      assert a + (b + f) == b + f == b + (a + f);
    } else {
      assert a + (b + f) == a + f == b + (a + f);
    }
  }

  /** The sort is stable: for every total, the rows with that total appear
      in the result in the same order as in the feed. */
  lemma {:induction false} SortStable(s: seq<UserScore>, k: int)
    ensures Seqs.Filter(SortByTotal(s), WithTotal(k)) == Seqs.Filter(s, WithTotal(k))
  {
    if |s| > 0 {
      SortStable(s[1..], k);
      InsertFilter(s[0], SortByTotal(s[1..]), k);
    }
  }
}
