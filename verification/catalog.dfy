/** The item catalogue every page loads: one record per scraped item, as
    `fetch_items` returns it and as `output.json` stores it. */
module Catalog {
  import opened Wrappers
  import Seqs

  /** An item of the catalogue. `details` maps a class-token key (`zo`
      element, `bu` weapon, `get` acquisition, `ca`, `sk`, `sw`) to its code;
      `dtype` is 0 for the first scraped page and 1 for the second. */
  datatype Item = Item(id: string, img: string, name: string, details: map<string, int>, dtype: int)

  function ItemId(item: Item): string
  {
    item.id
  }

  /** `catalog.find((item) => item.id === id)`: the first item with that id,
      or nothing when no item has it. */
  function FindItem(catalog: seq<Item>, id: string): (r: Option<Item>)
    ensures r.None? <==> forall i :: 0 <= i < |catalog| ==> catalog[i].id != id
    ensures r.Some? ==> r.value == catalog[Seqs.FirstIndex(catalog, ItemId, id)] && r.value.id == id
  {
    if |catalog| == 0 then None
    else if catalog[0].id == id then Some(catalog[0])
    else
      assert forall i :: 1 <= i < |catalog| ==> catalog[i] == catalog[1..][i - 1];
      FindItem(catalog[1..], id)
  }

  /** `ids.map((id) => catalog.find((item) => item.id === id)).filter(...)`:
      the first catalogue item of each id, in id order, with the ids that
      have no item dropped. */
  function FindAll(ids: seq<string>, catalog: seq<Item>): (r: seq<Item>)
    ensures |r| <= |ids|
    ensures forall i :: 0 <= i < |r| ==> r[i] in catalog
  {
    if |ids| == 0 then []
    else
      var rest := FindAll(ids[1..], catalog);
      match FindItem(catalog, ids[0])
      case Some(item) => [item] + rest
      case None => rest
  }

  /** Every id is carried by some catalogue item. */
  predicate AllKnown(ids: seq<string>, catalog: seq<Item>)
  {
    forall i :: 0 <= i < |ids| ==> Seqs.HasKey(catalog, ItemId, ids[i])
  }

  /** The first catalogue item of each id, one per id. */
  function FirstItems(ids: seq<string>, catalog: seq<Item>): (r: seq<Item>)
    requires AllKnown(ids, catalog)
    ensures |r| == |ids|
    ensures forall i :: 0 <= i < |ids| ==> r[i] == catalog[Seqs.FirstIndex(catalog, ItemId, ids[i])]
  {
    seq(|ids|, i requires 0 <= i < |ids| => catalog[Seqs.FirstIndex(catalog, ItemId, ids[i])])
  }

  /** When every id is in the catalogue, each one yields its first item. */
  lemma {:induction false} FindAllKnown(ids: seq<string>, catalog: seq<Item>)
    requires AllKnown(ids, catalog)
    ensures FindAll(ids, catalog) == FirstItems(ids, catalog)
  {
    if |ids| > 0 {
      assert forall i :: 1 <= i < |ids| ==> ids[1..][i - 1] == ids[i];
      FindAllKnown(ids[1..], catalog);
      var k := Seqs.FirstIndex(catalog, ItemId, ids[0]);
      assert catalog[k].id == ids[0];
    }
  }

  /** When no id is in the catalogue, nothing is found. */
  lemma {:induction false} FindAllUnknown(ids: seq<string>, catalog: seq<Item>)
    requires forall i, j :: 0 <= i < |ids| && 0 <= j < |catalog| ==> catalog[j].id != ids[i]
    ensures FindAll(ids, catalog) == []
  {
    if |ids| > 0 {
      assert forall i :: 1 <= i < |ids| ==> ids[1..][i - 1] == ids[i];
      FindAllUnknown(ids[1..], catalog);
    }
  }

  /** The ids that some catalogue item carries. */
  function Known(catalog: seq<Item>): string -> bool
  {
    (id: string) => Seqs.HasKey(catalog, ItemId, id)
  }

  /** Ids without a catalogue item drop out and leave the rest alone. */
  lemma {:induction false} FindAllSkipsUnknown(ids: seq<string>, catalog: seq<Item>)
    ensures FindAll(ids, catalog) == FindAll(Seqs.Filter(ids, Known(catalog)), catalog)
  {
    if |ids| > 0 {
      var x, t := ids[0], ids[1..];
      FindAllSkipsUnknown(t, catalog);
      assert ids == [x] + t;
      Seqs.FilterCons(x, t, Known(catalog));
      var f := Seqs.Filter(t, Known(catalog));
      if Known(catalog)(x) {
        assert ([x] + f)[0] == x && ([x] + f)[1..] == f;
      }
    }
  }

  /** For any ids: resolution is the first catalogue item of each known id,
      in id order, with duplicates kept and unknown ids dropped. */
  lemma FindAllFiltered(ids: seq<string>, catalog: seq<Item>)
    ensures FindAll(ids, catalog) == FirstItems(Seqs.Filter(ids, Known(catalog)), catalog)
  {
    FindAllSkipsUnknown(ids, catalog);
    FindAllKnown(Seqs.Filter(ids, Known(catalog)), catalog);
  }
}
