/**
 * The scene of js/original.js and what each of its operations does to it.
 * Tags are JavaScript properties that may be `undefined`, so each is an
 * `Option`; the JavaScript `==` on an undefined tag and a string is false,
 * and on two undefined values it is true, which `Option` equality matches.
 * A step that throws a `TypeError` is modelled by a `false` flag next to the
 * scene it leaves behind.
 */
module OriginalScene {
  import opened Common
  import opened Catalog
  import opened OriginalLoad

  const ItemsCategory := "items"
  const BodyCategory := "body"
  const HeadCategory := "head"

  /** The outfit a default state selects: body, shirt, pants and skin. */
  datatype Outfit = Outfit(body: string, shirt: string, pants: string, skin: string)

  const MaleOutfit := Outfit("male_body_1_head_1", "male_shirt_1", "male_pants_1", "male_skin_1")
  const FemaleOutfit := Outfit("female_body_1", "female_shirt_1", "female_pants_1", "female_skin_1")

  /** A top-level scene object; its descendants are `parts`, which carry no tags of their own. */
  datatype Obj = Obj(
    name: Option<string>,
    category: Option<string>,
    location: Option<string>,
    visible: bool,
    invData: Option<InvData>,
    parts: seq<Part>)

  predicate IsItemObj(o: Obj) { o.category == Some(ItemsCategory) }

  predicate IsBodyObj(o: Obj) { o.category == Some(BodyCategory) }

  /** Objects that `setItemByName` shows and hides. */
  predicate Selectable(o: Obj) { o.category == Some(ItemsCategory) || o.category == Some(HeadCategory) }

  // ----- removeAllItems, setBodyByName, remItemByName, remItemByLocation -----

  function HideItem(o: Obj): Obj
  {
    if IsItemObj(o) then o.(visible := false) else o
  }

  function ItemsHidden(s: seq<Obj>): seq<Obj>
  {
    seq(|s|, i requires 0 <= i < |s| => HideItem(s[i]))
  }

  function ShowBody(o: Obj, name: string): Obj
  {
    if IsBodyObj(o) then o.(visible := o.name == Some(name)) else o
  }

  predicate HasBody(s: seq<Obj>, name: string)
  {
    exists i :: 0 <= i < |s| && IsBodyObj(s[i]) && s[i].name == Some(name)
  }

  /** `setBodyByName`: the new scene and `selectedBodyName`. */
  function BodySelection(s: seq<Obj>, name: string, sel: Option<string>): (seq<Obj>, Option<string>)
  {
    (seq(|s|, i requires 0 <= i < |s| => ShowBody(HideItem(s[i]), name)),
     if HasBody(s, name) then Some(name) else sel)
  }

  function HideNamed(o: Obj, name: string): Obj
  {
    if IsItemObj(o) && o.name == Some(name) then o.(visible := false) else o
  }

  function NamedHidden(s: seq<Obj>, name: string): seq<Obj>
  {
    seq(|s|, i requires 0 <= i < |s| => HideNamed(s[i], name))
  }

  function HideAt(o: Obj, loc: string): Obj
  {
    if IsItemObj(o) && o.location == Some(loc) then o.(visible := false) else o
  }

  function LocationHidden(s: seq<Obj>, loc: string): seq<Obj>
  {
    seq(|s|, i requires 0 <= i < |s| => HideAt(s[i], loc))
  }

  // ----- setItemByName -----

  function ItemObjNamed(name: string): Obj -> bool { (o: Obj) => IsItemObj(o) && o.name == Some(name) }

  /**
   * The second traversal of `setItemByName` at one object, for the item found
   * by the first one (`None` when none was found: reading its location throws).
   */
  function ChooseAt(o: Obj, name: string, target: Option<Obj>): (Obj, bool)
  {
    if !Selectable(o) then (o, true)
    else if o.name == Some(name) then (o.(visible := true), true)
    else if target.None? then (o, false)
    else if o.location == target.value.location then (o.(visible := false), true)
    else (o, true)
  }

  function ChooseStep(name: string, target: Option<Obj>): Obj -> (Obj, bool)
  {
    (o: Obj) => ChooseAt(o, name, target)
  }

  /** The item `setItemByName` looks up: the last "items" object with that name. */
  function ItemTarget(s: seq<Obj>, name: string): Option<Obj>
  {
    match LastIndex(s, ItemObjNamed(name))
    case None => None
    case Some(k) => Some(s[k])
  }

  /** `setItemByName`: the new scene, and `false` when it threw. */
  function ItemSelection(s: seq<Obj>, name: string): (seq<Obj>, bool)
  {
    Traverse(s, ChooseStep(name, ItemTarget(s, name)))
  }

  // ----- setSkinByName -----

  datatype SkinOutcome = Applied | UnknownSkin | MissingTexture | HeadMissing

  /**
   * One mesh under the selected body: the material named "lower" takes the
   * lower texture and the skin's `inv_data`, "upper" and "head" take their
   * textures; an undefined head texture throws right after it is assigned.
   */
  function SkinPart(p: Part, b: SkinBundle): (Part, bool)
  {
    if !p.Mesh? then (p, true)
    else if p.material.name == LowerSlot then (p.(material := p.material.(texture := b.lower, invData := b.invData)), true)
    else if p.material.name == UpperSlot then (p.(material := p.material.(texture := b.upper)), true)
    else if p.material.name == HeadSlot then (p.(material := p.material.(texture := b.head)), b.head.Some?)
    else (p, true)
  }

  function SkinPartStep(b: SkinBundle): Part -> (Part, bool) { (p: Part) => SkinPart(p, b) }

  /**
   * Whether the skin reaches the descendants of `o`: those of the object named
   * `selectedBodyName`, and, while that is still undefined, every descendant,
   * since descendants carry no name either.
   */
  predicate SkinTarget(o: Obj, sel: Option<string>) { o.name == sel || sel.None? }

  function SkinObj(o: Obj, sel: Option<string>, b: SkinBundle): (Obj, bool)
  {
    if SkinTarget(o, sel) then
      var (parts, ok) := Traverse(o.parts, SkinPartStep(b));
      (o.(parts := parts), ok)
    else (o, true)
  }

  function SkinObjStep(sel: Option<string>, b: SkinBundle): Obj -> (Obj, bool) { (o: Obj) => SkinObj(o, sel, b) }

  /**
   * `setSkinByName`: a name missing from the map throws before anything
   * changes; a bundle without lower or upper texture changes nothing; otherwise
   * the targeted meshes are retextured until an undefined head texture throws.
   */
  function SkinSelection(s: seq<Obj>, sel: Option<string>, m: map<string, SkinBundle>, name: string): (seq<Obj>, SkinOutcome)
  {
    if name !in m then (s, UnknownSkin)
    else
      var b := m[name];
      if b.lower.None? || b.upper.None? then (s, MissingTexture)
      else
        var (r, ok) := Traverse(s, SkinObjStep(sel, b));
        (r, if ok then Applied else HeadMissing)
  }

  // ----- publishInvData -----

  /** The `inv_data` of the materials of a body, in traversal order, where present. */
  function MaterialInvData(ps: seq<Part>): seq<Option<InvData>>
  {
    if ps == [] then []
    else
      var p := ps[|ps| - 1];
      MaterialInvData(ps[..|ps| - 1]) + (if p.Mesh? && p.material.invData.Some? then [p.material.invData] else [])
  }

  /** What one visible object contributes to the published list. */
  function ObjInvData(o: Obj): seq<Option<InvData>>
  {
    if !o.visible then []
    else if IsBodyObj(o) then [o.invData] + MaterialInvData(o.parts)
    else if IsItemObj(o) then [o.invData]
    else []
  }

  /** `publishInvData`: for each visible object in scene order, as `ObjInvData` says. */
  function PublishedInvData(s: seq<Obj>): seq<Option<InvData>>
  {
    if s == [] then []
    else PublishedInvData(s[..|s| - 1]) + ObjInvData(s[|s| - 1])
  }

  // ----- the composition loop of preLoadEverything -----

  predicate NamePresent(s: seq<Obj>, name: string)
  {
    exists i :: 0 <= i < |s| && s[i].name == Some(name)
  }

  /** A new hidden item; it carries tags only when the catalog lists an item with its name. */
  function ItemObjOf(name: string, entry: Option<Item>, r: Result): Obj
    requires r.payload.Gltf?
  {
    match entry
    case None => Obj(None, None, None, false, None, r.payload.model.parts)
    case Some(it) => Obj(Some(name), Some(it.category), Some(it.location), false, Some(r.invData), r.payload.model.parts)
  }

  function BodyObjOf(b: Body, r: Result): Obj
    requires r.payload.Gltf?
  {
    Obj(Some(b.name), Some(b.category), None, false, Some(r.invData), r.payload.model.parts)
  }

  /**
   * The item loop for one body over the item names `xs`: an item is added for
   * the first result with its name unless an object with that name is already
   * in the scene; a texture result where a model is expected throws.
   */
  function ComposedItems(s: seq<Obj>, c: Config, data: seq<Result>, xs: seq<string>): (r: (seq<Obj>, bool))
    ensures |s| <= |r.0|
    ensures r.0[..|s|] == s
  {
    if xs == [] then (s, true)
    else
      var (s', ok) := ComposedItems(s, c, data, xs[..|xs| - 1]);
      var x := xs[|xs| - 1];
      var j := FirstIndex(data, ResultNamed(x));
      if !ok || j == |data| || NamePresent(s', x) then (s', ok)
      else if !data[j].payload.Gltf? then (s', false)
      else
        assert (s' + [ItemObjOf(x, FindItem(c.items, x), data[j])])[..|s|] == s'[..|s|];
        (s' + [ItemObjOf(x, FindItem(c.items, x), data[j])], true)
  }

  /** One body: its items first, then the body itself, from the first result with its name. */
  function ComposedBody(s: seq<Obj>, c: Config, data: seq<Result>, b: Body): (seq<Obj>, bool)
  {
    var k := FirstIndex(data, ResultNamed(b.name));
    if k == |data| then (s, true)
    else if !data[k].payload.Gltf? then (s, false)
    else
      var (s', ok) := ComposedItems(s, c, data, b.items);
      if ok then (s' + [BodyObjOf(b, data[k])], true) else (s', false)
  }

  /** The composition loop over the bodies `bs`, stopping at the first throw. */
  function Composed(s: seq<Obj>, c: Config, data: seq<Result>, bs: seq<Body>): (seq<Obj>, bool)
  {
    if bs == [] then (s, true)
    else
      var (s', ok) := Composed(s, c, data, bs[..|bs| - 1]);
      if ok then ComposedBody(s', c, data, bs[|bs| - 1]) else (s', false)
  }

  // ----- defaultMaleState and defaultFemaleState -----

  /**
   * A default state after its `setSex`: all items hidden, the outfit's body
   * selected, its shirt and then its pants put on, and its skin applied; the
   * flag is `false` when one of the steps threw, and the later steps are then
   * not run.
   */
  function Dressed(s: seq<Obj>, sel: Option<string>, m: map<string, SkinBundle>, o: Outfit): (seq<Obj>, Option<string>, bool)
  {
    var (s1, sel1) := BodySelection(ItemsHidden(s), o.body, sel);
    var (s2, ok2) := ItemSelection(s1, o.shirt);
    if !ok2 then (s2, sel1, false)
    else
      var (s3, ok3) := ItemSelection(s2, o.pants);
      if !ok3 then (s3, sel1, false)
      else
        var (s4, out) := SkinSelection(s3, sel1, m, o.skin);
        (s4, sel1, out == Applied || out == MissingTexture)
  }

  lemma {:induction false} ComposedItemsStopped(s: seq<Obj>, c: Config, data: seq<Result>, xs: seq<string>, k: nat)
    requires k <= |xs|
    requires !ComposedItems(s, c, data, xs[..k]).1
    ensures ComposedItems(s, c, data, xs) == ComposedItems(s, c, data, xs[..k])
  {
    if k < |xs| {
      assert xs[..|xs| - 1][..k] == xs[..k];
      ComposedItemsStopped(s, c, data, xs[..|xs| - 1], k);
    } else {
      assert xs[..k] == xs;
    }
  }

  lemma {:induction false} ComposedStopped(s: seq<Obj>, c: Config, data: seq<Result>, bs: seq<Body>, k: nat)
    requires k <= |bs|
    requires !Composed(s, c, data, bs[..k]).1
    ensures Composed(s, c, data, bs) == Composed(s, c, data, bs[..k])
  {
    if k < |bs| {
      assert bs[..|bs| - 1][..k] == bs[..k];
      ComposedStopped(s, c, data, bs[..|bs| - 1], k);
    } else {
      assert bs[..k] == bs;
    }
  }
}
