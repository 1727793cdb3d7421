/**
 * The catalog read from the configuration file: bodies, items and skins,
 * each keyed by its name. A body lists the names of the items it is
 * dressed from; `preload` is present only in the configuration shape that
 * splits loading into a start tier and a background tier.
 */
module Catalog {
  import opened Common

  datatype Body = Body(
    name: string,
    filename: string,
    category: string,
    items: seq<string>,
    skins: seq<string>,
    invData: InvData,
    preload: Option<bool>)

  datatype Item = Item(
    name: string,
    filename: string,
    category: string,
    location: string,
    invData: InvData,
    preload: Option<bool>)

  /** A skin names the three texture files for the lower, upper and head material slots. */
  datatype Skin = Skin(
    name: string,
    category: string,
    lower: string,
    upper: string,
    head: string,
    invData: InvData,
    preload: Option<bool>)

  datatype Config = Config(bodies: seq<Body>, items: seq<Item>, skins: seq<Skin>)

  function BodyNamed(name: string): Body -> bool { (b: Body) => b.name == name }

  function ItemNamed(name: string): Item -> bool { (it: Item) => it.name == name }

  /** The first catalog item with that name, if any. */
  function FindItem(items: seq<Item>, name: string): (r: Option<Item>)
    ensures r.None? <==> forall i :: 0 <= i < |items| ==> items[i].name != name
    ensures r.Some? ==> r.value.name == name
  {
    var k := FirstIndex(items, ItemNamed(name));
    if k < |items| then Some(items[k]) else None
  }

  /** The item found is the catalog entry at the first position holding that name. */
  lemma FindItemFirst(items: seq<Item>, name: string)
    ensures FindItem(items, name).Some? ==>
      exists k :: 0 <= k < |items| && items[k] == FindItem(items, name).value &&
                  forall j :: 0 <= j < k ==> items[j].name != name
  {
    var k := FirstIndex(items, ItemNamed(name));
    if k < |items| {
      assert items[k] == FindItem(items, name).value;
    }
  }

  /** `getItemByName`: an `every` scan that stops at the first item with that name. */
  method GetItemByName(config: Config, name: string) returns (r: Option<Item>)
    ensures r == FindItem(config.items, name)
  {
    var i := 0;
    while i < |config.items|
      invariant 0 <= i <= |config.items|
      invariant forall j :: 0 <= j < i ==> config.items[j].name != name
    {
      if config.items[i].name == name {
        return Some(config.items[i]);
      }
      i := i + 1;
    }
    return None;
  }
}
