/** The score basket of the score pages: the ordered list of item ids picked
    for one score key (duplicates allowed), the score pool it is loaded from
    and the comma-joined form it is submitted in. */
module Basket {
  import opened Wrappers
  import opened Catalog
  import Seqs
  import Text

  /** The basket: selected item ids, in click order. */
  type Keys = seq<string>

  /** Clicking a catalogue item appends its id, even when it is already in
      the basket. */
  function Click(keys: Keys, item: Item): (r: Keys)
    ensures |r| == |keys| + 1
    ensures r[..|keys|] == keys && r[|keys|] == item.id
    ensures multiset(r) == multiset(keys) + multiset{item.id}
  {
    keys + [item.id]
  }

  /** Clicking a basket item removes every occurrence of its id; the other
      ids keep their order and their multiplicity. */
  function Remove(keys: Keys, item: Item): (r: Keys)
    ensures item.id !in r
    ensures Seqs.IsSubsequence(r, keys)
    ensures forall k :: k != item.id ==> multiset(r)[k] == multiset(keys)[k]
  {
    Seqs.FilterCount(keys, k => k != item.id);
    Seqs.Filter(keys, k => k != item.id)
  }

  /** Removing an id that is not in the basket leaves it unchanged. */
  lemma RemoveAbsent(keys: Keys, item: Item)
    requires item.id !in keys
    ensures Remove(keys, item) == keys
  {
    Seqs.FilterKeepsAll(keys, k => k != item.id);
  }

  /** A click followed by a removal of the same item returns the basket to
      its earlier content and order when the id was not in it before. */
  lemma ClickThenRemove(keys: Keys, item: Item)
    requires item.id !in keys
    ensures Remove(Click(keys, item), item) == keys
  {
    var p := (k: string) => k != item.id;
    var c := Click(keys, item);
    assert c == keys + [item.id];
    assert Seqs.Filter(c, p) == Seqs.Filter(keys, p) by {
      FilterDropLast(keys, item.id, p);
    }
    RemoveAbsent(keys, item);
  }

  /** Filtering away a rejected last element equals filtering the rest. */
  lemma {:induction false} FilterDropLast(s: seq<string>, x: string, p: string -> bool)
    requires !p(x)
    ensures Seqs.Filter(s + [x], p) == Seqs.Filter(s, p)
  {
    if |s| > 0 {
      assert (s + [x])[1..] == s[1..] + [x];
      FilterDropLast(s[1..], x, p);
    }
  }

  /** `selectedKeys.map((key) => allItems.find((item) => item.id === key))`:
      one slot per basket id, holding the first catalogue item with that id
      or nothing. */
  function Resolve(keys: Keys, catalog: seq<Item>): (r: seq<Option<Item>>)
    ensures |r| == |keys|
    ensures forall i :: 0 <= i < |r| ==>
      (r[i].None? <==> forall j :: 0 <= j < |catalog| ==> catalog[j].id != keys[i])
    ensures forall i :: 0 <= i < |r| && r[i].Some? ==>
      r[i].value.id == keys[i] && r[i].value == catalog[Seqs.FirstIndex(catalog, ItemId, keys[i])]
  {
    seq(|keys|, i requires 0 <= i < |keys| => FindItem(catalog, keys[i]))
  }

  /** A basket id missing from the catalogue (or any id while the catalogue
      has not arrived) leaves an empty slot, which the item card then
      dereferences. */
  lemma ResolveLeavesHole()
    ensures Resolve(["32"], []) == [None]
  {
  }

  /** The items that were found, in basket order. */
  function Found(slots: seq<Option<Item>>): seq<Item>
  {
    if |slots| == 0 then []
    else (if slots[0].Some? then [slots[0].value] else []) + Found(slots[1..])
  }

  /** The basket as cards can show it: the first catalogue item of each id,
      ids without an item skipped, so every slot is a real item. */
  function ResolveKnown(keys: Keys, catalog: seq<Item>): (r: seq<Item>)
    ensures forall i :: 0 <= i < |r| ==> r[i] in catalog
    ensures AllKnown(keys, catalog) ==> r == FirstItems(keys, catalog)
  {
    assert AllKnown(keys, catalog) ==> FindAll(keys, catalog) == FirstItems(keys, catalog) by {
      if AllKnown(keys, catalog) {
        FindAllKnown(keys, catalog);
      }
    }
    FindAll(keys, catalog)
  }

  /** The corrected list is exactly the found slots of the list as written. */
  lemma {:induction false} ResolveKnownIsFound(keys: Keys, catalog: seq<Item>)
    ensures ResolveKnown(keys, catalog) == Found(Resolve(keys, catalog))
  {
    if |keys| > 0 {
      ResolveKnownIsFound(keys[1..], catalog);
      assert Resolve(keys, catalog)[1..] == Resolve(keys[1..], catalog);
    }
  }

  /** The submitted form of a basket: `selectedKeys.join(",")`. */
  function Encode(keys: Keys): string
  {
    Text.Join(keys, ',')
  }

  /** Reading a basket from a score-pool entry: `v ? v.split(",") : []`, so
      a missing or empty entry is the empty basket. */
  function Decode(entry: Option<string>): (r: Keys)
    ensures entry.None? || entry.value == "" ==> r == []
    ensures entry.Some? && entry.value != "" ==> |r| >= 1 && Encode(r) == entry.value
    ensures forall i :: 0 <= i < |r| ==> ',' !in r[i]
  {
    if entry.None? || entry.value == "" then [] else Text.Split(entry.value, ',')
  }

  /** A basket survives the trip to the server and back when no id holds a
      comma and it is not the single empty id. */
  lemma DecodeEncode(keys: Keys)
    requires forall i :: 0 <= i < |keys| ==> ',' !in keys[i]
    requires keys != [""]
    ensures Decode(Some(Encode(keys))) == keys
  {
    if |keys| > 0 {
      if |keys| == 1 {
        assert Encode(keys) == keys[0];
      } else {
        assert Encode(keys) == keys[0] + [','] + Text.Join(keys[1..], ',');
        assert Encode(keys)[|keys[0]|] == ',';
      }
      Text.SplitJoin(keys, ',');
    }
  }

  /** Every stored entry is reproduced by decoding and re-encoding it. */
  lemma EncodeDecode(entry: string)
    ensures Encode(Decode(Some(entry))) == entry
  {
  }

  /** The one basket the round trip loses: a single empty id. */
  lemma SingleEmptyIdIsLost()
    ensures Decode(Some(Encode([""]))) == []
  {
  }

  /** The score-pool page: the pool (score key to comma-joined ids), the
      chosen key and the basket being edited. */
  datatype PoolPage = PoolPage(data: map<string, string>, key: string, keys: Keys)

  const InitialKey := "15"

  function Entry(data: map<string, string>, key: string): Option<string>
  {
    if key in data then Some(data[key]) else None
  }

  /** The page before anything has loaded. */
  const InitialPage := PoolPage(map[], InitialKey, [])

  /** The pool arrives: it is stored and the basket is read from key "15",
      whatever key is chosen at that moment. */
  function OnScoreListLoaded(page: PoolPage, data: map<string, string>): (r: PoolPage)
    ensures r.data == data && r.key == page.key
    ensures r.keys == Decode(Entry(data, InitialKey))
  {
    page.(data := data, keys := Decode(Entry(data, InitialKey)))
  }

  /** Choosing a key replaces the basket with that key's entry, discarding
      unsaved edits. */
  function SelectKey(page: PoolPage, key: string): (r: PoolPage)
    ensures r.data == page.data && r.key == key
    ensures r.keys == [] <==> key !in page.data || page.data[key] == ""
    ensures key in page.data ==> Encode(r.keys) == page.data[key]
  {
    page.(key := key, keys := Decode(Entry(page.data, key)))
  }

  /** The body POSTed on submit. */
  datatype Payload = Payload(key: string, value: string)

  function SubmitPayload(page: PoolPage): (r: Payload)
    ensures r.key == page.key
    ensures (forall i :: 0 <= i < |page.keys| ==> ',' !in page.keys[i]) && page.keys != [""] ==>
      Decode(Some(r.value)) == page.keys
  {
    assert (forall i :: 0 <= i < |page.keys| ==> ',' !in page.keys[i]) && page.keys != [""] ==>
      Decode(Some(Encode(page.keys))) == page.keys by {
      if (forall i :: 0 <= i < |page.keys| ==> ',' !in page.keys[i]) && page.keys != [""] {
        DecodeEncode(page.keys);
      }
    }
    Payload(page.key, Encode(page.keys))
  }

  /** The basket is the chosen key's entry of the pool, as choosing a key
      makes it. */
  predicate ShowsKey(page: PoolPage)
  {
    page.keys == Decode(Entry(page.data, page.key))
  }

  /** An entry's text, with a missing entry read as "". */
  function EntryText(data: map<string, string>, key: string): string
  {
    if key in data then data[key] else ""
  }

  /** The server's reply to a submit, as written: the updated pool, or
      nothing when the request or its JSON decoding failed (the page is then
      unchanged). The basket is re-read under the key captured when the
      request was sent, which is not the chosen key if it changed since. */
  function OnSubmitReply(page: PoolPage, sent: Payload, reply: Option<map<string, string>>): (r: PoolPage)
    ensures reply.None? ==> r == page
    ensures reply.Some? ==> r.data == reply.value && r.key == page.key
    ensures reply.Some? ==> r.keys == Decode(Entry(reply.value, sent.key))
    ensures reply.Some? && sent.key == page.key ==> ShowsKey(r)
  {
    match reply
    case None => page
    case Some(d) => page.(data := d, keys := Decode(Entry(d, sent.key)))
  }

  /** The reply read under the chosen key: afterwards the basket is that
      key's entry of the new pool. */
  function OnSubmitReplyCorrected(page: PoolPage, reply: Option<map<string, string>>): (r: PoolPage)
    ensures reply.None? ==> r == page
    ensures reply.Some? ==> r.data == reply.value && r.key == page.key && ShowsKey(r)
  {
    match reply
    case None => page
    case Some(d) => page.(data := d, keys := Decode(Entry(d, page.key)))
  }

  /** A key switched while the request is in flight, as written: the
      basket shown under the new key is the old key's entry, and the next
      submit writes that entry over the new key. */
  lemma StaleKeyReply(page: PoolPage, sent: Payload, reply: map<string, string>)
    requires sent.key != page.key
    requires EntryText(reply, sent.key) != EntryText(reply, page.key)
    ensures !ShowsKey(OnSubmitReply(page, sent, Some(reply)))
    ensures SubmitPayload(OnSubmitReply(page, sent, Some(reply))) == Payload(page.key, EntryText(reply, sent.key))
  {
    EncodeDecodeEntry(reply, sent.key);
    EncodeDecodeEntry(reply, page.key);
  }

  /** Re-encoding a decoded entry gives its text. */
  lemma EncodeDecodeEntry(data: map<string, string>, key: string)
    ensures Encode(Decode(Entry(data, key))) == EntryText(data, key)
  {
    if key in data {
      EncodeDecode(data[key]);
    }
  }

  /** When the server stores the submitted value under the chosen key, the
      basket shown after the reply is the basket that was submitted. */
  lemma SubmitEchoKeepsBasket(page: PoolPage, reply: map<string, string>)
    requires forall i :: 0 <= i < |page.keys| ==> ',' !in page.keys[i]
    requires page.keys != [""]
    requires page.key in reply && reply[page.key] == SubmitPayload(page).value
    ensures OnSubmitReply(page, SubmitPayload(page), Some(reply)).keys == page.keys
  {
    DecodeEncode(page.keys);
  }
}
