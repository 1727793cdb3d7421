/**
 * js/orig_prototype.js: the catalog split into a start tier and a
 * background tier by each entry's `preload` flag, the requests
 * `loadResources` issues for a tier, and `addToScene2`, which adds every
 * loaded model as a tagged node and merges skin textures into
 * `skinTextureMap` one slot at a time.
 */
module OrigPrototype {
  import opened Common
  import opened Catalog
  import PrototypeLoad

  const BodyCategory := "body"
  const ItemCategory := "item"
  const SkinCategory := "skin"
  const LowerLocation := "lower"
  const UpperLocation := "upper"
  const HeadLocation := "head"

  type Request = PrototypeLoad.Request

  /** What `loadAsync` resolves with: the request's tags and the decoded payload. */
  datatype Entry = Entry(name: string, category: string, location: string, payload: Payload, invData: InvData)

  function Resolve(r: Request, p: Payload): (e: Entry)
    ensures e.name == r.name && e.category == r.category && e.location == r.location && e.invData == r.invData
    ensures e.payload == p
  {
    Entry(r.name, r.category, r.location, p, r.invData)
  }

  /** The entry of request `i` when it resolves with payload `ps[i]`. */
  function Resolved(reqs: seq<Request>, ps: seq<Payload>): (data: seq<Entry>)
    requires |ps| == |reqs|
    ensures |data| == |reqs|
    ensures forall i :: 0 <= i < |reqs| ==> data[i] == Resolve(reqs[i], ps[i])
  {
    seq(|reqs|, i requires 0 <= i < |reqs| => Resolve(reqs[i], ps[i]))
  }

  function SkinRequest(sk: Skin, url: string, loc: string): Request
  {
    PrototypeLoad.Request(TextureLoader, url, sk.name, sk.category, loc, sk.invData)
  }

  /**
   * The request list of `loadResources`: three texture requests per skin,
   * tagged lower, upper and head in that order, then one model request per
   * body with location "", then one per item with its own location.
   */
  predicate Issued(skins: seq<Skin>, bodies: seq<Body>, items: seq<Item>, reqs: seq<Request>)
  {
    |reqs| == 3 * |skins| + |bodies| + |items| &&
    (forall i :: 0 <= i < |skins| ==>
       reqs[3 * i] == SkinRequest(skins[i], skins[i].lower, LowerLocation) &&
       reqs[3 * i + 1] == SkinRequest(skins[i], skins[i].upper, UpperLocation) &&
       reqs[3 * i + 2] == SkinRequest(skins[i], skins[i].head, HeadLocation)) &&
    (forall j :: 0 <= j < |bodies| ==> reqs[3 * |skins| + j] == PrototypeLoad.BodyRequest(bodies[j])) &&
    (forall j :: 0 <= j < |items| ==> reqs[3 * |skins| + |bodies| + j] == PrototypeLoad.ItemRequest(items[j]))
  }

  method LoadResources(skins: seq<Skin>, bodies: seq<Body>, items: seq<Item>) returns (reqs: seq<Request>)
    ensures Issued(skins, bodies, items, reqs)
  {
    reqs := [];
    var i := 0;
    while i < |skins|
      invariant 0 <= i <= |skins| && |reqs| == 3 * i
      invariant forall t :: 0 <= t < i ==>
                  reqs[3 * t] == SkinRequest(skins[t], skins[t].lower, LowerLocation) &&
                  reqs[3 * t + 1] == SkinRequest(skins[t], skins[t].upper, UpperLocation) &&
                  reqs[3 * t + 2] == SkinRequest(skins[t], skins[t].head, HeadLocation)
    {
      var sk := skins[i];
      reqs := reqs + [SkinRequest(sk, sk.lower, LowerLocation),
                      SkinRequest(sk, sk.upper, UpperLocation),
                      SkinRequest(sk, sk.head, HeadLocation)];
      i := i + 1;
    }
    ghost var after := reqs;
    var j := 0;
    while j < |bodies|
      invariant 0 <= j <= |bodies| && |reqs| == 3 * |skins| + j
      invariant reqs[..3 * |skins|] == after
      invariant forall t :: 0 <= t < j ==> reqs[3 * |skins| + t] == PrototypeLoad.BodyRequest(bodies[t])
    {
      reqs := reqs + [PrototypeLoad.BodyRequest(bodies[j])];
      j := j + 1;
    }
    ghost var after' := reqs;
    j := 0;
    while j < |items|
      invariant 0 <= j <= |items| && |reqs| == 3 * |skins| + |bodies| + j
      invariant reqs[..3 * |skins| + |bodies|] == after'
      invariant forall t :: 0 <= t < j ==> reqs[3 * |skins| + |bodies| + t] == PrototypeLoad.ItemRequest(items[t])
    {
      reqs := reqs + [PrototypeLoad.ItemRequest(items[j])];
      j := j + 1;
    }
    assert forall t :: 0 <= t < 3 * |skins| + |bodies| ==> reqs[t] == after'[t];
    assert forall t :: 0 <= t < 3 * |skins| ==> after'[t] == after[t];
  }

  // ----- preloadStartData and loadMainData -----

  /**
   * Whether an entry belongs to a tier: the start tier takes a truthy `preload`
   * (`if (body.preload)`), the background tier a `preload` equal to `false`.
   */
  predicate InTier(preload: Option<bool>, start: bool) { preload == Some(start) }

  function BodyInTier(start: bool): Body -> bool { (b: Body) => InTier(b.preload, start) }

  function ItemInTier(start: bool): Item -> bool { (it: Item) => InTier(it.preload, start) }

  function SkinInTier(start: bool): Skin -> bool { (sk: Skin) => InTier(sk.preload, start) }

  /** The bodies, items and skins of one tier, each in catalog order. */
  function Tier(c: Config, start: bool): Config
  {
    Config(Filter(c.bodies, BodyInTier(start)), Filter(c.items, ItemInTier(start)), Filter(c.skins, SkinInTier(start)))
  }

  /** A `forEach` that pushes the entries `keep` accepts. */
  method Keep<T>(xs: seq<T>, keep: T -> bool) returns (r: seq<T>)
    ensures r == Filter(xs, keep)
  {
    r := [];
    var i := 0;
    while i < |xs|
      invariant 0 <= i <= |xs|
      invariant r == Filter(xs[..i], keep)
    {
      assert xs[..i + 1][..i] == xs[..i];
      if keep(xs[i]) {
        r := r + [xs[i]];
      }
      i := i + 1;
    }
    assert xs[..i] == xs;
  }

  method SelectTier(c: Config, start: bool) returns (tier: Config, reqs: seq<Request>)
    ensures tier == Tier(c, start)
    ensures Issued(tier.skins, tier.bodies, tier.items, reqs)
  {
    var bodies := Keep(c.bodies, BodyInTier(start));
    var items := Keep(c.items, ItemInTier(start));
    var skins := Keep(c.skins, SkinInTier(start));
    tier := Config(bodies, items, skins);
    reqs := LoadResources(skins, bodies, items);
  }

  /** `preloadStartData`: the start tier and the requests issued for it. */
  method PreloadStartData(c: Config) returns (tier: Config, reqs: seq<Request>)
    ensures tier == Tier(c, true)
    ensures Issued(tier.skins, tier.bodies, tier.items, reqs)
  {
    tier, reqs := SelectTier(c, true);
  }

  /** `loadMainData`: the background tier and the requests issued for it. */
  method LoadMainData(c: Config) returns (tier: Config, reqs: seq<Request>)
    ensures tier == Tier(c, false)
    ensures Issued(tier.skins, tier.bodies, tier.items, reqs)
  {
    tier, reqs := SelectTier(c, false);
  }

  // ----- addToScene2 -----

  /** A top-level scene node with the tags `addToScene2` puts in its `userData`. */
  datatype Node = Node(name: Option<string>, category: Option<string>, invData: Option<InvData>, visible: bool, parts: seq<Part>)

  /** The lights, floor and grid `initWebGL` adds first; they carry no tags. */
  const Fixtures: seq<Node> := [
    Node(None, None, None, true, []),
    Node(None, None, None, true, []),
    Node(None, None, None, true, []),
    Node(None, None, None, true, [])]

  /** A texture slot of a bundle: never assigned, the "" placeholder, or a loaded texture. */
  datatype Slot = Undefined | Blank | Holds(texture: Payload)

  datatype Bundle = Bundle(lower: Slot, upper: Slot, head: Slot, invData: InvData)

  function SlotAt(b: Bundle, loc: string): Slot
  {
    if loc == LowerLocation then b.lower else if loc == UpperLocation then b.upper else b.head
  }

  predicate IsModelEntry(e: Entry) { e.category == BodyCategory || e.category == ItemCategory }

  predicate IsSkinEntry(e: Entry) { e.category == SkinCategory }

  function ModelEntry(): Entry -> bool { (e: Entry) => IsModelEntry(e) }

  function SkinEntry(): Entry -> bool { (e: Entry) => IsSkinEntry(e) }

  function NodeOf(e: Entry, visible: bool): Node
    requires e.payload.Gltf?
  {
    Node(Some(e.name), Some(e.category), Some(e.invData), visible, e.payload.model.parts)
  }

  function Refill(e: Entry, loc: string, prior: Slot): Slot
  {
    if e.location == loc then Holds(e.payload) else prior
  }

  /**
   * One skin entry: the slot its location names takes its payload, the other
   * two come from the existing bundle (blank placeholders for a new skin name),
   * and `inv_data` is the entry's.
   */
  function MergeSkinEntry(m: map<string, Bundle>, e: Entry): map<string, Bundle>
  {
    var stm := if e.name in m then m[e.name] else Bundle(Blank, Blank, Blank, e.invData);
    m[e.name := Bundle(Refill(e, LowerLocation, stm.lower), Refill(e, UpperLocation, stm.upper),
                       Refill(e, HeadLocation, stm.head), e.invData)]
  }

  /**
   * The same step as the code has it: for a new skin name, `stm` is assigned
   * the result of `Map.set`, which is the map itself, so reading its slots
   * yields `undefined` rather than the placeholders.
   */
  function MergeSkinEntryAsWritten(m: map<string, Bundle>, e: Entry): map<string, Bundle>
  {
    var stm := if e.name in m then m[e.name] else Bundle(Undefined, Undefined, Undefined, e.invData);
    m[e.name := Bundle(Refill(e, LowerLocation, stm.lower), Refill(e, UpperLocation, stm.upper),
                       Refill(e, HeadLocation, stm.head), e.invData)]
  }

  /** `skinTextureMap` after merging the skin entries `xs` in order. */
  function Merged(m: map<string, Bundle>, xs: seq<Entry>): map<string, Bundle>
  {
    if xs == [] then m else MergeSkinEntry(Merged(m, xs[..|xs| - 1]), xs[|xs| - 1])
  }

  /** `skinTextureMap` after merging the skin entries `xs` in order, as the code has it. */
  function MergedAsWritten(m: map<string, Bundle>, xs: seq<Entry>): map<string, Bundle>
  {
    if xs == [] then m else MergeSkinEntryAsWritten(MergedAsWritten(m, xs[..|xs| - 1]), xs[|xs| - 1])
  }

  /**
   * `addToScene2(loaded_data, visible)`: the new scene, the new map, and
   * `false` when a body or item entry without a model made the clone throw,
   * which ends the `forEach` there. Entries of any other category are skipped.
   */
  function Added(s: seq<Node>, m: map<string, Bundle>, es: seq<Entry>, visible: bool): (seq<Node>, map<string, Bundle>, bool)
  {
    if es == [] then (s, m, true)
    else
      var (s', m', ok) := Added(s, m, es[..|es| - 1], visible);
      var e := es[|es| - 1];
      if !ok then (s', m', false)
      else if IsModelEntry(e) then
        if e.payload.Gltf? then (s' + [NodeOf(e, visible)], m', true) else (s', m', false)
      else if IsSkinEntry(e) then (s', MergeSkinEntry(m', e), true)
      else (s', m', true)
  }

  lemma {:induction false} AddedStopped(s: seq<Node>, m: map<string, Bundle>, es: seq<Entry>, visible: bool, k: nat)
    requires k <= |es|
    requires !Added(s, m, es[..k], visible).2
    ensures Added(s, m, es, visible) == Added(s, m, es[..k], visible)
  {
    if k < |es| {
      assert es[..|es| - 1][..k] == es[..k];
      AddedStopped(s, m, es[..|es| - 1], visible, k);
    } else {
      assert es[..k] == es;
    }
  }

  /** The page state js/orig_prototype.js keeps at module level: the scene and the skin map. */
  class Viewer {
    var scene: seq<Node>
    var skinTextureMap: map<string, Bundle>

    constructor ()
      ensures scene == Fixtures && skinTextureMap == map[]
    {
      scene := Fixtures;
      skinTextureMap := map[];
    }

    method AddToScene2(loaded: seq<Entry>, visible: bool) returns (ok: bool)
      modifies this
      ensures (scene, skinTextureMap, ok) == Added(old(scene), old(skinTextureMap), loaded, visible)
    {
      ghost var s0, m0 := scene, skinTextureMap;
      var i := 0;
      while i < |loaded|
        invariant 0 <= i <= |loaded|
        invariant Added(s0, m0, loaded[..i], visible) == (scene, skinTextureMap, true)
      {
        assert loaded[..i + 1][..i] == loaded[..i];
        var e := loaded[i];
        if e.category == BodyCategory || e.category == ItemCategory {
          if !e.payload.Gltf? {
            AddedStopped(s0, m0, loaded, visible, i + 1);
            return false;
          }
          scene := scene + [Node(Some(e.name), Some(e.category), Some(e.invData), visible, e.payload.model.parts)];
        } else if e.category == SkinCategory {
          var stm := if e.name in skinTextureMap then skinTextureMap[e.name] else Bundle(Blank, Blank, Blank, e.invData);
          skinTextureMap := skinTextureMap[e.name := Bundle(
            if e.location == LowerLocation then Holds(e.payload) else stm.lower,
            if e.location == UpperLocation then Holds(e.payload) else stm.upper,
            if e.location == HeadLocation then Holds(e.payload) else stm.head,
            e.invData)];
        }
        i := i + 1;
      }
      assert loaded[..i] == loaded;
      ok := true;
    }
  }
}
