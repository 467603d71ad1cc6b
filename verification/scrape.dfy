/** The catalogue scraper shared by `raw.py` and `DBManager`: each table row
    of a source page becomes one record whose id is the image file name,
    whose details come from the row's class tokens, and whose `dtype` says
    which of the two pages it came from. */
module Scrape {
  import opened Wrappers
  import Seqs
  import Text
  import Catalog

  /** The class-token prefixes, in the order the pattern's alternation
      tries them. */
  const ClassKeys: seq<string> := ["zo", "bu", "ca", "sk", "sw", "get"]

  predicate IsDigit(c: char)
  {
    '0' <= c <= '9'
  }

  /** The longest run of digits at the start of `s` (what `\d+` consumes). */
  function DigitRun(s: string): (r: string)
    ensures |r| <= |s| && r == s[..|r|]
    ensures forall i :: 0 <= i < |r| ==> IsDigit(r[i])
    ensures |r| < |s| ==> !IsDigit(s[|r|])
  {
    if |s| == 0 || !IsDigit(s[0]) then ""
    else
      var rest := DigitRun(s[1..]);
      assert s[1..][..|rest|] == s[1..|rest| + 1];
      [s[0]] + rest
  }

  /** A run of digits followed by something that is not a digit is read
      in full. */
  lemma {:induction false} DigitRunOf(d: string, rest: string)
    requires forall i :: 0 <= i < |d| ==> IsDigit(d[i])
    requires |rest| == 0 || !IsDigit(rest[0])
    ensures DigitRun(d + rest) == d
  {
    if |d| > 0 {
      assert (d + rest)[1..] == d[1..] + rest;
      DigitRunOf(d[1..], rest);
      assert d == [d[0]] + d[1..];
    }
  }

  /** `cls` begins with `key` followed by at least one digit. */
  predicate StartsToken(cls: string, key: string)
  {
    |key| < |cls| && cls[..|key|] == key && IsDigit(cls[|key|])
  }

  /** The first key of `keys` that starts a token in `cls`. */
  function MatchKey(cls: string, keys: seq<string>): (r: Option<string>)
    ensures r.Some? ==> r.value in keys && StartsToken(cls, r.value)
    ensures r.None? <==> forall i :: 0 <= i < |keys| ==> !StartsToken(cls, keys[i])
  {
    if |keys| == 0 then None
    else if StartsToken(cls, keys[0]) then Some(keys[0])
    else
      assert forall i :: 1 <= i < |keys| ==> keys[i] == keys[1..][i - 1];
      MatchKey(cls, keys[1..])
  }

  /** At most one class key can start a given token. */
  lemma KeysExclusive(cls: string, k1: string, k2: string)
    requires k1 in ClassKeys && k2 in ClassKeys
    requires StartsToken(cls, k1) && StartsToken(cls, k2)
    ensures k1 == k2
  {
    assert cls[..|k1|][0] == cls[0] == cls[..|k2|][0];
    assert |k1| >= 2 && |k2| >= 2;
    assert cls[..|k1|][1] == cls[1] == cls[..|k2|][1];
  }

  /** A token that starts with a class key matches that key. */
  lemma MatchKeyUnique(cls: string, key: string)
    requires key in ClassKeys && StartsToken(cls, key)
    ensures MatchKey(cls, ClassKeys) == Some(key)
  {
    KeysExclusive(cls, key, MatchKey(cls, ClassKeys).value);
  }

  /** One entry of a record's details: a class key and its number. */
  datatype Detail = Detail(key: string, value: int)

  /** `re.match(r"(zo|bu|ca|sk|sw|get)(\d+)", cls)` with `int(value)`: a
      token that starts with a class key and a digit gives that key and the
      value of the whole digit run; any other token gives nothing. */
  function ParseClassToken(cls: string): (r: Option<Detail>)
    ensures r.None? <==> forall i :: 0 <= i < |ClassKeys| ==> !StartsToken(cls, ClassKeys[i])
    ensures r.Some? ==> r.value.key in ClassKeys && StartsToken(cls, r.value.key)
    ensures r.Some? ==> r.value.value == Text.DecimalValue(DigitRun(cls[|r.value.key|..]))
  {
    match MatchKey(cls, ClassKeys)
    case None => None
    case Some(k) => Some(Detail(k, Text.DecimalValue(DigitRun(cls[|k|..]))))
  }

  /** A key, a numeral and a tail that does not continue the numeral read
      back as that key and number; leading zeros aside, this is the class
      token the page writes. */
  lemma ClassTokenRoundTrip(key: string, n: nat, rest: string)
    requires key in ClassKeys
    requires |rest| == 0 || !IsDigit(rest[0])
    ensures ParseClassToken(key + Text.NatToDecimal(n) + rest) == Some(Detail(key, n))
  {
    var d := Text.NatToDecimal(n);
    ParseTokenOf(key, d, rest);
    Text.DecimalRoundTrip(n);
  }

  /** A key followed by a non-empty digit run reads as the key and the
      run's value. */
  lemma ParseTokenOf(key: string, d: string, rest: string)
    requires key in ClassKeys
    requires |d| > 0 && forall i :: 0 <= i < |d| ==> '0' <= d[i] <= '9'
    requires |rest| == 0 || !IsDigit(rest[0])
    ensures ParseClassToken(key + d + rest) == Some(Detail(key, Text.DecimalValue(d)))
  {
    var s := key + d + rest;
    StartsTokenOf(key, d, rest);
    ParseTokenAt(s, key);
    DigitRunAfterKey(key, d, rest);
  }

  lemma DigitRunAfterKey(key: string, d: string, rest: string)
    requires forall i :: 0 <= i < |d| ==> '0' <= d[i] <= '9'
    requires |rest| == 0 || !IsDigit(rest[0])
    ensures DigitRun((key + d + rest)[|key|..]) == d
  {
    assert (key + d + rest)[|key|..] == d + rest;
    DigitRunOf(d, rest);
  }

  lemma StartsTokenOf(key: string, d: string, rest: string)
    requires |d| > 0 && IsDigit(d[0])
    ensures StartsToken(key + d + rest, key)
  {
    var s := key + d + rest;
    assert s[..|key|] == key;
    assert s[|key|] == d[0];
  }

  /** A token that starts with a class key reads as that key. */
  lemma ParseTokenAt(s: string, key: string)
    requires key in ClassKeys && StartsToken(s, key)
    ensures ParseClassToken(s) == Some(Detail(key, Text.DecimalValue(DigitRun(s[|key|..]))))
  {
    MatchKeyUnique(s, key);
  }

  /** Trailing letters do not stop a token from matching: the pattern is
      anchored only at the start. */
  lemma TokenWithSuffix()
    ensures ParseClassToken("zo007x") == Some(Detail("zo", 7))
  {
    var s := "zo007x";
    assert StartsToken(s, "zo");
    MatchKeyUnique(s, "zo");
    assert s[2..] == "007x";
    assert DigitRun("007x") == "007" by {
      assert "007x"[1..] == "07x";
      assert "07x"[1..] == "7x";
      assert "7x"[1..] == "x";
    }
    assert "007"[..2] == "00";
    assert "00"[..1] == "0";
    assert "0"[..0] == "";
  }

  /** The keys of a details list are distinct: it is a Python dict. */
  predicate DistinctKeys(d: seq<Detail>)
  {
    forall i, j :: 0 <= i < j < |d| ==> d[i].key != d[j].key
  }

  /** The position of `k` in a details list. */
  function IndexOf(d: seq<Detail>, k: string): (r: Option<nat>)
    ensures r.None? <==> forall i :: 0 <= i < |d| ==> d[i].key != k
    ensures r.Some? ==> r.value < |d| && d[r.value].key == k
    ensures r.Some? ==> forall j :: 0 <= j < r.value ==> d[j].key != k
  {
    if |d| == 0 then None
    else if d[0].key == k then Some(0)
    else
      var r := IndexOf(d[1..], k);
      assert forall i :: 1 <= i < |d| ==> d[i] == d[1..][i - 1];
      if r.None? then None else Some(r.value + 1)
  }

  /** `d[k]`, or nothing when `k` is not a key. */
  function Lookup(d: seq<Detail>, k: string): (r: Option<int>)
    ensures r.None? <==> forall i :: 0 <= i < |d| ==> d[i].key != k
    ensures DistinctKeys(d) ==> forall i :: 0 <= i < |d| && d[i].key == k ==> r == Some(d[i].value)
  {
    match IndexOf(d, k)
    case None => None
    case Some(i) => Some(d[i].value)
  }

  /** `d[k] = v` on a dict: an existing key keeps its place and takes the
      new value, a new key goes last. */
  function Put(d: seq<Detail>, k: string, v: int): (r: seq<Detail>)
    requires DistinctKeys(d)
    ensures DistinctKeys(r)
    ensures Lookup(r, k) == Some(v)
    ensures forall k' :: k' != k ==> Lookup(r, k') == Lookup(d, k')
    ensures |r| == if Lookup(d, k).Some? then |d| else |d| + 1
    ensures forall i :: 0 <= i < |r| ==> r[i].key == k || r[i] in d
  {
    match IndexOf(d, k)
    case Some(i) =>
      var r := d[i := Detail(k, v)];
      PutAt(d, i, k, v);
      assert forall j :: 0 <= j < |r| && j != i ==> r[j] == d[j];
      r
    case None =>
      var r := d + [Detail(k, v)];
      PutLast(d, k, v);
      assert forall j :: 0 <= j < |d| ==> r[j] == d[j];
      r
  }

  lemma PutAt(d: seq<Detail>, i: nat, k: string, v: int)
    requires DistinctKeys(d) && i < |d| && d[i].key == k
    ensures var r := d[i := Detail(k, v)];
      DistinctKeys(r) && Lookup(r, k) == Some(v) && forall k' :: k' != k ==> Lookup(r, k') == Lookup(d, k')
  {
    var r := d[i := Detail(k, v)];
    assert forall j :: 0 <= j < |r| ==> r[j].key == d[j].key;
    forall k' | k' != k
      ensures Lookup(r, k') == Lookup(d, k')
    {
      assert forall j :: 0 <= j < |r| && r[j].key == k' ==> r[j] == d[j];
    }
  }

  lemma PutLast(d: seq<Detail>, k: string, v: int)
    requires DistinctKeys(d) && forall i :: 0 <= i < |d| ==> d[i].key != k
    ensures var r := d + [Detail(k, v)];
      DistinctKeys(r) && Lookup(r, k) == Some(v) && forall k' :: k' != k ==> Lookup(r, k') == Lookup(d, k')
  {
    var r := d + [Detail(k, v)];
    assert forall j :: 0 <= j < |d| ==> r[j] == d[j];
    assert r[|d|] == Detail(k, v);
  }

  /** The value of the last token in `classes` with key `k`, if any. */
  function LastToken(classes: seq<string>, k: string): Option<int>
  {
    if |classes| == 0 then None
    else
      var t := ParseClassToken(classes[|classes| - 1]);
      if t.Some? && t.value.key == k then Some(t.value.value) else LastToken(classes[..|classes| - 1], k)
  }

  /** The `class_details` loop: each matching token puts its key; the last
      token with a key decides its value, and only class keys occur. */
  function ClassDetails(classes: seq<string>): (r: seq<Detail>)
    ensures DistinctKeys(r)
  {
    if |classes| == 0 then []
    else
      var acc := ClassDetails(classes[..|classes| - 1]);
      match ParseClassToken(classes[|classes| - 1])
      case None => acc
      case Some(t) => Put(acc, t.key, t.value)
  }

  /** Each key of the details is a class key and holds the value of the
      last token with that key. */
  lemma {:induction false} ClassDetailsLookup(classes: seq<string>)
    ensures forall k :: Lookup(ClassDetails(classes), k) == LastToken(classes, k)
    ensures forall i :: 0 <= i < |ClassDetails(classes)| ==> ClassDetails(classes)[i].key in ClassKeys
  {
    if |classes| > 0 {
      ClassDetailsLookup(classes[..|classes| - 1]);
    }
  }

  /** The details as a map, the last entry for a key winning (as when the
      rows are read back into a dict). */
  function ToMap(d: seq<Detail>): map<string, int>
  {
    if |d| == 0 then map[]
    else ToMap(d[..|d| - 1])[d[|d| - 1].key := d[|d| - 1].value]
  }

  /** For a dict the map holds exactly its entries. */
  lemma {:induction false} ToMapLookup(d: seq<Detail>)
    requires DistinctKeys(d)
    ensures forall k :: (k in ToMap(d) <==> Lookup(d, k).Some?) && (k in ToMap(d) ==> ToMap(d)[k] == Lookup(d, k).value)
  {
    if |d| > 0 {
      var p := d[..|d| - 1];
      assert forall i :: 0 <= i < |p| ==> p[i] == d[i];
      ToMapLookup(p);
    }
  }

  /** `r"/([^/]+)\.jpg$"` searched in the image URL: the URL ends in
      ".jpg" (or ".jpg" and one newline, which `$` also accepts) and the
      segment between the last "/" and that suffix is not empty. */
  function ImageId(img: string): (r: Option<string>)
    ensures r.Some? ==> r.value != "" && '/' !in r.value
    ensures r.Some? ==> EndsWith(img, "/" + r.value + ".jpg") || EndsWith(img, "/" + r.value + ".jpg\n")
  {
    match JpgStem(img)
    case None => None
    case Some(t) =>
      var id := AfterLastSlash(t);
      if id != "" && |id| < |t| then
        SlashBeforeTail(img, t, id);
        Some(id)
      else None
  }

  /** The URL without its ".jpg" (or ".jpg" and newline) ending. */
  function JpgStem(img: string): (r: Option<string>)
    ensures r.Some? ==> img == r.value + ".jpg" || img == r.value + ".jpg\n"
    ensures r.None? <==> !EndsWith(img, ".jpg") && !EndsWith(img, ".jpg\n")
  {
    if EndsWith(img, ".jpg") then Some(img[..|img| - 4])
    else if EndsWith(img, ".jpg\n") then Some(img[..|img| - 5])
    else None
  }

  lemma SlashBeforeTail(img: string, t: string, id: string)
    requires img == t + ".jpg" || img == t + ".jpg\n"
    requires |id| < |t| && t[|t| - |id|..] == id && t[|t| - |id| - 1] == '/'
    ensures EndsWith(img, "/" + id + ".jpg") || EndsWith(img, "/" + id + ".jpg\n")
  {
    var j := |t| - |id| - 1;
    assert t == t[..j] + ("/" + id);
    var suffix := if img == t + ".jpg" then ".jpg" else ".jpg\n";
    assert img == t[..j] + ("/" + id + suffix);
  }

  predicate EndsWith(s: string, suffix: string)
  {
    |suffix| <= |s| && s[|s| - |suffix|..] == suffix
  }

  /** The part of `t` after its last "/" (all of `t` when it has none). */
  function AfterLastSlash(t: string): (r: string)
    ensures |r| <= |t| && t[|t| - |r|..] == r && '/' !in r
    ensures |r| < |t| ==> t[|t| - |r| - 1] == '/'
  {
    if |t| == 0 || t[|t| - 1] == '/' then ""
    else
      var p, c := t[..|t| - 1], t[|t| - 1];
      var r := AfterLastSlash(p);
      assert t == p + [c];
      AfterLastSlashStep(p, c, r);
      r + [c]
  }

  /** One more character that is not "/" extends the part after the last
      "/". */
  lemma AfterLastSlashStep(p: string, c: char, r: string)
    requires |r| <= |p| && p[|p| - |r|..] == r && '/' !in r && c != '/'
    requires |r| < |p| ==> p[|p| - |r| - 1] == '/'
    ensures |r + [c]| <= |p + [c]| && (p + [c])[|p + [c]| - |r + [c]|..] == r + [c]
    ensures '/' !in r + [c]
    ensures |r + [c]| < |p + [c]| ==> (p + [c])[|p + [c]| - |r + [c]| - 1] == '/'
  {
    var t := p + [c];
    assert t[|p| - |r|..] == p[|p| - |r|..] + [c];
    if |r| < |p| {
      assert t[|p| - |r| - 1] == p[|p| - |r| - 1];
    }
  }

  lemma {:induction false} AfterLastSlashOf(prefix: string, id: string)
    requires '/' !in id
    ensures AfterLastSlash(prefix + "/" + id) == id
  {
    var t := prefix + "/" + id;
    if |id| > 0 {
      var p := id[..|id| - 1];
      assert t[..|t| - 1] == prefix + "/" + p;
      assert id[|id| - 1] in id;
      AfterLastSlashOf(prefix, p);
      assert id == p + [id[|id| - 1]];
    }
  }

  /** Every image URL "<anything>/<id>.jpg" yields its id. */
  lemma ImageIdOf(prefix: string, id: string, suffix: string)
    requires id != "" && '/' !in id
    requires suffix == ".jpg" || suffix == ".jpg\n"
    ensures ImageId(prefix + "/" + id + suffix) == Some(id)
  {
    var img := prefix + "/" + id + suffix;
    var t := prefix + "/" + id;
    assert img == t + suffix;
    assert img[|img| - |suffix|..] == suffix;
    if suffix == ".jpg\n" {
      assert img[|img| - 1] == '\n';
      assert !EndsWith(img, ".jpg");
    }
    assert img[..|img| - |suffix|] == t;
    AfterLastSlashOf(prefix, id);
  }

  /** One table row: its class tokens, the image's `data-original` (missing
      when there is no image or no such attribute) and its `data-col1`
      name. */
  datatype Row = Row(classes: seq<string>, img: Option<string>, name: string)

  /** One scraped record. `details` is the dict in insertion order. */
  datatype Record = Record(id: string, img: string, name: string, details: seq<Detail>, dtype: int)

  datatype ScrapeError =
    | BadStatus(status: int)  // a status other than 200
    | NoTable                 // the page has no table `div`
    | NoImage                 // a row without an image URL
    | NoImageId               // `img_id` read before any URL matched

  /** The id in a row's image URL, when it has one. */
  function RowImageId(row: Row): Option<string>
  {
    if row.img.Some? then ImageId(row.img.value) else None
  }

  predicate HasImageId(row: Row)
  {
    RowImageId(row).Some?
  }

  /** The record fields other than the id, as the row gives them. */
  predicate FromRow(rec: Record, row: Row, dtype: int)
  {
    row.img == Some(rec.img) && rec.name == row.name && rec.details == ClassDetails(row.classes) && rec.dtype == dtype
  }

  /** `img_id` after the loop has seen `rows`: the id of the last matching
      URL. */
  function CurrentId(rows: seq<Row>): (r: Option<string>)
    ensures |rows| > 0 && HasImageId(rows[0]) ==> r.Some?
  {
    if |rows| == 0 then None
    else if HasImageId(rows[|rows| - 1]) then RowImageId(rows[|rows| - 1])
    else
      var p := rows[..|rows| - 1];
      assert |p| > 0 ==> p[0] == rows[0];
      CurrentId(p)
  }

  /** The ids the row loop as written assigns: a row whose URL has no
      ".jpg" id keeps the previous row's id, and when the very first row
      has none the loop fails on the unbound name. A row without an image
      URL fails first. */
  function RowIds(rows: seq<Row>): (r: Result<seq<string>, ScrapeError>)
    ensures r.Ok? ==> |r.value| == |rows| && forall i :: 0 <= i < |rows| ==> rows[i].img.Some?
  {
    if |rows| == 0 then Ok([])
    else
      var p := rows[..|rows| - 1];
      var row := rows[|rows| - 1];
      match RowIds(p)
      case Err(e) => Err(e)
      case Ok(ids) =>
        if row.img.None? then Err(NoImage)
        else
          match CurrentId(rows)
          case None => Err(NoImageId)
          case Some(id) =>
            assert forall i :: 0 <= i < |p| ==> p[i] == rows[i];
            Ok(ids + [id])
  }

  /** One record per row, in order, under the given ids. */
  function Records(rows: seq<Row>, ids: seq<string>, dtype: int): (r: seq<Record>)
    requires |ids| == |rows| && forall i :: 0 <= i < |rows| ==> rows[i].img.Some?
    ensures |r| == |rows|
    ensures forall i :: 0 <= i < |rows| ==> FromRow(r[i], rows[i], dtype) && r[i].id == ids[i]
  {
    seq(|rows|, i requires 0 <= i < |rows| =>
      Record(ids[i], rows[i].img.value, rows[i].name, ClassDetails(rows[i].classes), dtype))
  }

  /** The row loop as written. */
  function ParseRows(rows: seq<Row>, dtype: int): (r: Result<seq<Record>, ScrapeError>)
    ensures r.Ok? ==> |r.value| == |rows|
    ensures r.Ok? ==> forall i :: 0 <= i < |rows| ==> FromRow(r.value[i], rows[i], dtype)
  {
    match RowIds(rows)
    case Err(e) => Err(e)
    case Ok(ids) => Ok(Records(rows, ids, dtype))
  }

  /** The loop succeeds exactly when every row has an image URL and the
      first one has a ".jpg" id. */
  lemma {:induction false} RowIdsOk(rows: seq<Row>)
    ensures RowIds(rows).Ok? <==>
      (forall i :: 0 <= i < |rows| ==> rows[i].img.Some?) && (|rows| == 0 || HasImageId(rows[0]))
  {
    if |rows| > 0 {
      var p := rows[..|rows| - 1];
      var row := rows[|rows| - 1];
      assert forall i :: 0 <= i < |p| ==> p[i] == rows[i];
      RowIdsOk(p);
      if RowIds(p).Ok? {
        assert RowIds(rows).Ok? <==> row.img.Some? && CurrentId(rows).Some?;
        if |p| == 0 {
          assert CurrentId(rows).Some? <==> HasImageId(row);
        } else {
          assert p[0] == rows[0];
        }
      } else {
        assert |p| > 0 ==> p[0] == rows[0];
      }
    }
  }

  /** Each row's id is its own when its URL has one and the previous row's
      otherwise; the last one is the loop's current id. */
  lemma RowIdsValues(rows: seq<Row>)
    requires RowIds(rows).Ok?
    ensures forall i :: 0 <= i < |rows| && HasImageId(rows[i]) ==> RowIds(rows).value[i] == RowImageId(rows[i]).value
    ensures forall i :: 0 < i < |rows| && !HasImageId(rows[i]) ==> RowIds(rows).value[i] == RowIds(rows).value[i - 1]
    ensures |rows| > 0 ==> RowIds(rows).value[|rows| - 1] == CurrentId(rows).value
  {
    RowIdsOwn(rows);
    RowIdsCarry(rows);
    if |rows| > 0 {
      RowIdsStep(rows);
    }
  }

  lemma {:induction false} RowIdsOwn(rows: seq<Row>)
    requires RowIds(rows).Ok?
    ensures forall i :: 0 <= i < |rows| && HasImageId(rows[i]) ==> RowIds(rows).value[i] == RowImageId(rows[i]).value
  {
    if |rows| > 0 {
      var n := |rows| - 1;
      var p := rows[..n];
      RowIdsStep(rows);
      var r := RowIds(rows).value;
      var q := RowIds(p).value;
      RowIdsOwn(p);
      forall i | 0 <= i < n && HasImageId(rows[i])
        ensures r[i] == RowImageId(rows[i]).value
      {
        assert r[i] == q[i] && p[i] == rows[i];
      }
    }
  }

  lemma {:induction false} RowIdsCarry(rows: seq<Row>)
    requires RowIds(rows).Ok?
    ensures forall i :: 0 < i < |rows| && !HasImageId(rows[i]) ==> RowIds(rows).value[i] == RowIds(rows).value[i - 1]
  {
    if |rows| > 0 {
      var n := |rows| - 1;
      var p := rows[..n];
      RowIdsStep(rows);
      var r := RowIds(rows).value;
      var q := RowIds(p).value;
      RowIdsCarry(p);
      if n > 0 {
        RowIdsStep(p);
      }
      forall i | 0 < i < n && !HasImageId(rows[i])
        ensures r[i] == r[i - 1]
      {
        assert r[i - 1] == q[i - 1];
        assert r[i] == q[i] && p[i] == rows[i];
      }
    }
  }

  /** One more row appends the loop's current id, which is the row's own
      id when it has one and otherwise the id before it. */
  lemma RowIdsStep(rows: seq<Row>)
    requires RowIds(rows).Ok? && |rows| > 0
    ensures var n := |rows| - 1;
      && RowIds(rows[..n]).Ok?
      && RowIds(rows).value == RowIds(rows[..n]).value + [CurrentId(rows).value]
      && (HasImageId(rows[n]) ==> CurrentId(rows) == RowImageId(rows[n]))
      && (!HasImageId(rows[n]) ==> CurrentId(rows) == CurrentId(rows[..n]))
  {
  }

  /** The loop succeeds exactly when every row has an image URL and the
      first one has a ".jpg" id. */
  lemma ParseRowsOk(rows: seq<Row>, dtype: int)
    ensures ParseRows(rows, dtype).Ok? <==>
      (forall i :: 0 <= i < |rows| ==> rows[i].img.Some?) && (|rows| == 0 || HasImageId(rows[0]))
  {
    RowIdsOk(rows);
  }

  /** Each row gives one record, in order, under its own id when it has
      one and under the previous record's id otherwise. */
  lemma ParseRowsRecords(rows: seq<Row>, dtype: int)
    requires ParseRows(rows, dtype).Ok?
    ensures forall i :: 0 <= i < |rows| && HasImageId(rows[i]) ==>
      ParseRows(rows, dtype).value[i].id == RowImageId(rows[i]).value
    ensures forall i :: 0 < i < |rows| && !HasImageId(rows[i]) ==>
      ParseRows(rows, dtype).value[i].id == ParseRows(rows, dtype).value[i - 1].id
  {
    RowIdsValues(rows);
  }

  /** Under the loop as written a row whose URL has no ".jpg" id, after a
      row that has one, produces a record under that earlier row's id. */
  lemma StaleIdReused(first: Row, second: Row, dtype: int)
    requires HasImageId(first)
    requires second.img.Some? && !HasImageId(second)
    ensures ParseRows([first, second], dtype).Ok?
    ensures ParseRows([first, second], dtype).value[0].id == RowImageId(first).value
    ensures ParseRows([first, second], dtype).value[1].id == RowImageId(first).value
    ensures ParseRows([first, second], dtype).value[1].img == second.img.value
  {
    var rows := [first, second];
    ParseRowsOk(rows, dtype);
    ParseRowsRecords(rows, dtype);
  }

  /** A ".jpg" URL has an id and a ".png" URL has none. */
  lemma PngHasNoId()
    ensures ImageId("https://img/a.jpg") == Some("a")
    ensures ImageId("https://img/b.png") == None
  {
    var jpg := "https://img/a.jpg";
    var t := jpg[..|jpg| - 4];
    assert jpg == t + ".jpg";
    assert JpgStem(jpg) == Some(t);
    assert t == t[..|t| - 2] + "/" + "a";
    AfterLastSlashOf(t[..|t| - 2], "a");
    var png := "https://img/b.png";
    assert png[|png| - 3] == 'p' && png[|png| - 1] == 'g';
    assert !EndsWith(png, ".jpg") by { assert ".jpg"[1] == 'j'; }
    assert !EndsWith(png, ".jpg\n") by { assert ".jpg\n"[4] == '\n'; }
  }

  /** The row loop with the id taken only from the row's own URL: rows
      without a ".jpg" id give no record, and a row without an image URL
      still fails. */
  function ParseRowsCorrected(rows: seq<Row>, dtype: int): (r: Result<seq<Record>, ScrapeError>)
    ensures r.Ok? <==> forall i :: 0 <= i < |rows| ==> rows[i].img.Some?
    ensures r.Ok? ==> |r.value| == |Seqs.Filter(rows, HasImageId)|
  {
    if |rows| == 0 then Ok([])
    else
      var row := rows[0];
      SplitFirst(rows);
      if row.img.None? then Err(NoImage)
      else
        match ParseRowsCorrected(rows[1..], dtype)
        case Err(e) => Err(e)
        case Ok(rest) =>
          match ImageId(row.img.value)
          case None => Ok(rest)
          case Some(id) => Ok([Record(id, row.img.value, row.name, ClassDetails(row.classes), dtype)] + rest)
  }

  lemma SplitFirst(rows: seq<Row>)
    requires |rows| > 0
    ensures forall i :: 1 <= i < |rows| ==> rows[i] == rows[1..][i - 1]
    ensures Seqs.Filter(rows, HasImageId) ==
      (if HasImageId(rows[0]) then [rows[0]] else []) + Seqs.Filter(rows[1..], HasImageId)
  {
    Seqs.FilterCons(rows[0], rows[1..], HasImageId);
    assert rows == [rows[0]] + rows[1..];
  }

  /** Under the corrected loop each record comes from the row with a ".jpg"
      id at the same place among such rows, and carries that row's own
      id. */
  lemma {:induction false} ParseRowsCorrectedSpec(rows: seq<Row>, dtype: int)
    requires ParseRowsCorrected(rows, dtype).Ok?
    ensures forall k :: 0 <= k < |ParseRowsCorrected(rows, dtype).value| ==>
      OwnRecord(ParseRowsCorrected(rows, dtype).value[k], Seqs.Filter(rows, HasImageId)[k], dtype)
  {
    if |rows| > 0 {
      var row := rows[0];
      Seqs.FilterCons(row, rows[1..], HasImageId);
      assert rows == [row] + rows[1..];
      ParseRowsCorrectedSpec(rows[1..], dtype);
    }
  }

  /** `rec` is `row`'s record, under the row's own id. */
  predicate OwnRecord(rec: Record, row: Row, dtype: int)
  {
    FromRow(rec, row, dtype) && RowImageId(row) == Some(rec.id)
  }

  /** The same two rows under the corrected loop: only the row with a
      ".jpg" id gives a record. */
  lemma StaleIdDropped(first: Row, second: Row, dtype: int)
    requires HasImageId(first)
    requires second.img.Some? && !HasImageId(second)
    ensures ParseRowsCorrected([first, second], dtype).Ok?
    ensures |ParseRowsCorrected([first, second], dtype).value| == 1
    ensures ParseRowsCorrected([first, second], dtype).value[0].id == RowImageId(first).value
  {
    var rows := [first, second];
    assert rows[1..][1..] == [];
    Seqs.FilterCons(second, [], HasImageId);
    Seqs.FilterCons(first, rows[1..], HasImageId);
    assert rows == [first] + rows[1..];
    ParseRowsCorrectedSpec(rows, dtype);
  }

  /** A fetched page: its HTTP status and, when the table `div` is there,
      the rows with class "ca1", "get1" or "get2". */
  datatype Page = Page(status: int, table: Option<seq<Row>>)

  /** `DBManager._fetch_data_from_url`: a status other than 200 raises, a
      page without the table fails, and otherwise the rows are parsed by
      the loop as written. */
  function FetchData(page: Page, dtype: int): (r: Result<seq<Record>, ScrapeError>)
    ensures page.status != 200 ==> r == Err(BadStatus(page.status))
    ensures page.status == 200 && page.table.None? ==> r == Err(NoTable)
    ensures page.status == 200 && page.table.Some? ==> r == ParseRows(page.table.value, dtype)
    ensures r.Ok? ==> page.table.Some? && |r.value| == |page.table.value|
    ensures r.Ok? ==> forall k :: 0 <= k < |r.value| ==> FromRow(r.value[k], page.table.value[k], dtype)
  {
    if page.status != 200 then Err(BadStatus(page.status))
    else if page.table.None? then Err(NoTable)
    else ParseRows(page.table.value, dtype)
  }

  /** The same fetch with the corrected row loop: a row without a ".jpg"
      id gives no record, and every record is under its own row's id. */
  function FetchDataCorrected(page: Page, dtype: int): (r: Result<seq<Record>, ScrapeError>)
    ensures page.status != 200 ==> r == Err(BadStatus(page.status))
    ensures page.status == 200 && page.table.None? ==> r == Err(NoTable)
    ensures page.status == 200 && page.table.Some? ==> r == ParseRowsCorrected(page.table.value, dtype)
    ensures r.Ok? ==> forall k :: 0 <= k < |r.value| ==>
      page.table.Some? && OwnRecord(r.value[k], Seqs.Filter(page.table.value, HasImageId)[k], dtype)
  {
    if page.status != 200 then Err(BadStatus(page.status))
    else if page.table.None? then Err(NoTable)
    else
      var r := ParseRowsCorrected(page.table.value, dtype);
      assert r.Ok? ==> forall k :: 0 <= k < |r.value| ==>
        OwnRecord(r.value[k], Seqs.Filter(page.table.value, HasImageId)[k], dtype) by {
        if r.Ok? { ParseRowsCorrectedSpec(page.table.value, dtype); }
      }
      r
  }

  /** `raw.get_data`: like `FetchData`, except that a status other than 200
      returns nothing instead of raising. */
  function GetData(page: Page, dtype: int): (r: Result<Option<seq<Record>>, ScrapeError>)
    ensures page.status != 200 <==> r == Ok(None)
    ensures page.status == 200 ==> (r.Ok? <==> FetchData(page, dtype).Ok?)
    ensures r.Ok? && r.value.Some? ==> r.value.value == FetchData(page, dtype).value
  {
    if page.status != 200 then Ok(None)
    else
      match FetchData(page, dtype)
      case Err(e) => Err(e)
      case Ok(recs) => Ok(Some(recs))
  }

  datatype OutputError = ScrapeFailed(error: ScrapeError) | NotAList

  /** `raw.py`'s script: the first page's records (dtype 0) followed by the
      second page's (dtype 1). The second page is fetched before the `+=`
      runs, so its failure wins; then a page that returned nothing makes
      the `+=` fail. */
  function RawOutput(page0: Page, page1: Page): (r: Result<seq<Record>, OutputError>)
    ensures r.Ok? <==> page0.status == 200 && page1.status == 200 && FetchData(page0, 0).Ok? && FetchData(page1, 1).Ok?
    ensures r.Ok? ==> r.value == FetchData(page0, 0).value + FetchData(page1, 1).value
    ensures r.Ok? ==> forall k :: 0 <= k < |r.value| ==>
      r.value[k].dtype == if k < |FetchData(page0, 0).value| then 0 else 1
  {
    match GetData(page0, 0)
    case Err(e) => Err(ScrapeFailed(e))
    case Ok(first) =>
      match GetData(page1, 1)
      case Err(e) => Err(ScrapeFailed(e))
      case Ok(second) =>
        if first.None? || second.None? then Err(NotAList) else Ok(first.value + second.value)
  }

  /** The catalogue item a record becomes in `output.json`. */
  function ToItem(rec: Record): Catalog.Item
  {
    Catalog.Item(rec.id, rec.img, rec.name, ToMap(rec.details), rec.dtype)
  }
}
