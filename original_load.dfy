/**
 * Loading in js/original.js: the request list `loadResources` issues for
 * the whole catalog, and the skin assembly of `preLoadEverything`, which
 * collects each skin's three texture results into one bundle.
 */
module OriginalLoad {
  import opened Common
  import opened Catalog

  const LowerSlot := "lower"
  const UpperSlot := "upper"
  const HeadSlot := "head"

  /** One call of `loadAsync`: loader, file, and the name, location and `inv_data` its result carries. */
  datatype Request = Request(loader: Loader, url: string, name: string, location: string, invData: InvData)

  /** What a request resolves with. */
  datatype Result = Result(name: string, location: string, payload: Payload, invData: InvData)

  function Resolve(r: Request, p: Payload): (res: Result)
    ensures res.name == r.name && res.location == r.location && res.invData == r.invData && res.payload == p
  {
    Result(r.name, r.location, p, r.invData)
  }

  /**
   * `loadResources`: three texture requests per skin (lower, upper, head), then
   * one model request per body with location "", then one per item with its
   * own location, each group in catalog order.
   */
  method LoadResources(skins: seq<Skin>, bodies: seq<Body>, items: seq<Item>) returns (reqs: seq<Request>)
    ensures |reqs| == 3 * |skins| + |bodies| + |items|
    ensures forall i :: 0 <= i < |skins| ==>
              reqs[3 * i] == Request(TextureLoader, skins[i].lower, skins[i].name, LowerSlot, skins[i].invData) &&
              reqs[3 * i + 1] == Request(TextureLoader, skins[i].upper, skins[i].name, UpperSlot, skins[i].invData) &&
              reqs[3 * i + 2] == Request(TextureLoader, skins[i].head, skins[i].name, HeadSlot, skins[i].invData)
    ensures forall j :: 0 <= j < |bodies| ==>
              reqs[3 * |skins| + j] == Request(GltfLoader, bodies[j].filename, bodies[j].name, "", bodies[j].invData)
    ensures forall j :: 0 <= j < |items| ==>
              reqs[3 * |skins| + |bodies| + j] == Request(GltfLoader, items[j].filename, items[j].name, items[j].location, items[j].invData)
  {
    reqs := [];
    var i := 0;
    while i < |skins|
      invariant 0 <= i <= |skins| && |reqs| == 3 * i
      invariant forall t :: 0 <= t < i ==>
                  reqs[3 * t] == Request(TextureLoader, skins[t].lower, skins[t].name, LowerSlot, skins[t].invData) &&
                  reqs[3 * t + 1] == Request(TextureLoader, skins[t].upper, skins[t].name, UpperSlot, skins[t].invData) &&
                  reqs[3 * t + 2] == Request(TextureLoader, skins[t].head, skins[t].name, HeadSlot, skins[t].invData)
    {
      var sk := skins[i];
      reqs := reqs + [Request(TextureLoader, sk.lower, sk.name, LowerSlot, sk.invData),
                      Request(TextureLoader, sk.upper, sk.name, UpperSlot, sk.invData),
                      Request(TextureLoader, sk.head, sk.name, HeadSlot, sk.invData)];
      i := i + 1;
    }
    ghost var after := reqs;
    var j := 0;
    while j < |bodies|
      invariant 0 <= j <= |bodies| && |reqs| == 3 * |skins| + j
      invariant reqs[..3 * |skins|] == after
      invariant forall t :: 0 <= t < j ==> reqs[3 * |skins| + t] == Request(GltfLoader, bodies[t].filename, bodies[t].name, "", bodies[t].invData)
    {
      reqs := reqs + [Request(GltfLoader, bodies[j].filename, bodies[j].name, "", bodies[j].invData)];
      j := j + 1;
    }
    ghost var after' := reqs;
    j := 0;
    while j < |items|
      invariant 0 <= j <= |items| && |reqs| == 3 * |skins| + |bodies| + j
      invariant reqs[..3 * |skins| + |bodies|] == after'
      invariant forall t :: 0 <= t < j ==>
                  reqs[3 * |skins| + |bodies| + t] == Request(GltfLoader, items[t].filename, items[t].name, items[t].location, items[t].invData)
    {
      reqs := reqs + [Request(GltfLoader, items[j].filename, items[j].name, items[j].location, items[j].invData)];
      j := j + 1;
    }
    assert forall t :: 0 <= t < 3 * |skins| + |bodies| ==> reqs[t] == after'[t];
    assert forall t :: 0 <= t < 3 * |skins| ==> after'[t] == after[t];
  }

  /** A skin bundle as stored in `skinTextureMap`; a slot no result filled is `undefined`. */
  datatype SkinBundle = SkinBundle(lower: Option<Payload>, upper: Option<Payload>, head: Option<Payload>, invData: Option<InvData>)

  predicate Filled(b: SkinBundle) { b.lower.Some? && b.upper.Some? && b.head.Some? }

  function ResultNamed(name: string): Result -> bool { (r: Result) => r.name == name }

  function ResultAt(name: string, loc: string): Result -> bool { (r: Result) => r.name == name && r.location == loc }

  /** The payload of the last result for skin `name` at slot `loc`. */
  function SlotPayload(data: seq<Result>, name: string, loc: string): Option<Payload>
  {
    match LastIndex(data, ResultAt(name, loc))
    case None => None
    case Some(k) => Some(data[k].payload)
  }

  /** What the scan over all results gathers for skin `name`: each slot from its last result, `inv_data` from the last result with that name. */
  function Gathered(data: seq<Result>, name: string): SkinBundle
  {
    SkinBundle(
      SlotPayload(data, name, LowerSlot),
      SlotPayload(data, name, UpperSlot),
      SlotPayload(data, name, HeadSlot),
      match LastIndex(data, ResultNamed(name)) case None => None case Some(k) => Some(data[k].invData))
  }

  /** `skinTextureMap` after the assembly loop over `skins`: a skin enters only when all three slots were found. */
  function Assembled(m: map<string, SkinBundle>, skins: seq<Skin>, data: seq<Result>): map<string, SkinBundle>
  {
    if skins == [] then m
    else
      var m' := Assembled(m, skins[..|skins| - 1], data);
      var name := skins[|skins| - 1].name;
      var b := Gathered(data, name);
      if Filled(b) then m'[name := b] else m'
  }

  /** The `data.every` scan for one skin, which keeps overwriting its local slots. */
  method Gather(data: seq<Result>, name: string) returns (b: SkinBundle)
    ensures b == Gathered(data, name)
  {
    var lower, upper, head, inv := None, None, None, None;
    var i := 0;
    while i < |data|
      invariant 0 <= i <= |data|
      invariant SkinBundle(lower, upper, head, inv) == Gathered(data[..i], name)
    {
      assert data[..i + 1][..i] == data[..i];
      var r := data[i];
      if r.name == name {
        if r.location == LowerSlot {
          lower := Some(r.payload);
        }
        if r.location == UpperSlot {
          upper := Some(r.payload);
        }
        if r.location == HeadSlot {
          head := Some(r.payload);
        }
        inv := Some(r.invData);
      }
      i := i + 1;
    }
    assert data[..i] == data;
    b := SkinBundle(lower, upper, head, inv);
  }

  /** Some skin of the list has that name. */
  predicate Listed(skins: seq<Skin>, name: string)
  {
    exists i :: 0 <= i < |skins| && skins[i].name == name
  }

  lemma ListedLast(skins: seq<Skin>, name: string)
    requires skins != []
    ensures Listed(skins, name) <==> Listed(skins[..|skins| - 1], name) || skins[|skins| - 1].name == name
  {
    var pre := skins[..|skins| - 1];
    if Listed(skins, name) && skins[|skins| - 1].name != name {
      var i :| 0 <= i < |skins| && skins[i].name == name;
      assert pre[i] == skins[i];
    }
    if Listed(pre, name) {
      var i :| 0 <= i < |pre| && pre[i].name == name;
      assert skins[i] == pre[i];
    }
  }

  /**
   * After assembly, a name maps to its gathered bundle exactly when some skin
   * has that name and all three of its slots were found; every other name keeps
   * what the map held before.
   */
  lemma {:induction false} AssembledEntry(m: map<string, SkinBundle>, skins: seq<Skin>, data: seq<Result>, name: string)
    ensures Listed(skins, name) && Filled(Gathered(data, name)) ==>
              name in Assembled(m, skins, data) && Assembled(m, skins, data)[name] == Gathered(data, name)
    ensures !(Listed(skins, name) && Filled(Gathered(data, name))) ==>
              (name in Assembled(m, skins, data) <==> name in m) &&
              (name in m ==> Assembled(m, skins, data)[name] == m[name])
  {
    if skins != [] {
      AssembledEntry(m, skins[..|skins| - 1], data, name);
      ListedLast(skins, name);
    }
  }

  /** The result of request `i` when it resolves with payload `ps[i]`. */
  function Resolved(reqs: seq<Request>, ps: seq<Payload>): (data: seq<Result>)
    requires |ps| == |reqs|
    ensures |data| == |reqs|
  {
    seq(|reqs|, i requires 0 <= i < |reqs| => Resolve(reqs[i], ps[i]))
  }

  /** Whatever the loaders hand back, the results of a skin's three requests fill all its slots. */
  lemma SkinRequestsFill(reqs: seq<Request>, ps: seq<Payload>, sk: Skin, i: nat)
    requires |ps| == |reqs| && i + 2 < |reqs|
    requires reqs[i] == Request(TextureLoader, sk.lower, sk.name, LowerSlot, sk.invData)
    requires reqs[i + 1] == Request(TextureLoader, sk.upper, sk.name, UpperSlot, sk.invData)
    requires reqs[i + 2] == Request(TextureLoader, sk.head, sk.name, HeadSlot, sk.invData)
    ensures Filled(Gathered(Resolved(reqs, ps), sk.name))
    ensures Gathered(Resolved(reqs, ps), sk.name).invData.Some?
  {
    var data := Resolved(reqs, ps);
    assert ResultAt(sk.name, LowerSlot)(data[i]);
    assert ResultAt(sk.name, UpperSlot)(data[i + 1]);
    assert ResultAt(sk.name, HeadSlot)(data[i + 2]);
    assert ResultNamed(sk.name)(data[i]);
  }
}
