/**
 * What the operations of js/original.js guarantee: the global item
 * selection and when it throws, the skin application and its slots, the
 * completeness of assembled skins, item deduplication and order during
 * composition, and the order of the published `inv_data`.
 */
module OriginalProperties {
  import opened Common
  import opened Catalog
  import opened OriginalLoad
  import opened OriginalScene

  // ----- setBodyByName, remItemByName, remItemByLocation -----

  /**
   * `setBodyByName(name)` hides every item, shows the bodies with that name and
   * hides every other body, leaves all else as it was, and records the name as
   * `selectedBodyName` exactly when some body has it.
   */
  lemma BodySelectionEffect(s: seq<Obj>, name: string, sel: Option<string>)
    ensures |BodySelection(s, name, sel).0| == |s|
    ensures forall i :: 0 <= i < |s| ==>
      var o := BodySelection(s, name, sel).0[i];
      (IsItemObj(s[i]) ==> o == s[i].(visible := false)) &&
      (IsBodyObj(s[i]) ==> o == s[i].(visible := s[i].name == Some(name))) &&
      (!IsItemObj(s[i]) && !IsBodyObj(s[i]) ==> o == s[i])
    ensures BodySelection(s, name, sel).1 == (if HasBody(s, name) then Some(name) else sel)
  {
  }

  /** After `setBodyByName(name)`, a visible body or item is a body named `name`. */
  lemma BodySelectionExclusive(s: seq<Obj>, name: string, sel: Option<string>)
    ensures forall i :: 0 <= i < |s| && BodySelection(s, name, sel).0[i].visible ==>
      !IsItemObj(BodySelection(s, name, sel).0[i]) &&
      (IsBodyObj(BodySelection(s, name, sel).0[i]) ==> BodySelection(s, name, sel).0[i].name == Some(name))
  {
    BodySelectionEffect(s, name, sel);
  }

  /**
   * `remItemByName` and `remItemByLocation` hide exactly the items with that
   * name, or at that location, and leave every other object as it was.
   */
  lemma HidingEffect(s: seq<Obj>, x: string)
    ensures |NamedHidden(s, x)| == |s| && |LocationHidden(s, x)| == |s|
    ensures forall i :: 0 <= i < |s| ==>
      NamedHidden(s, x)[i] == (if IsItemObj(s[i]) && s[i].name == Some(x) then s[i].(visible := false) else s[i])
    ensures forall i :: 0 <= i < |s| ==>
      LocationHidden(s, x)[i] == (if IsItemObj(s[i]) && s[i].location == Some(x) then s[i].(visible := false) else s[i])
  {
  }

  /**
   * Afterwards no "items" object with that name, or at that location, is
   * visible, and removing the same name or location again changes nothing.
   */
  lemma HidingComplete(s: seq<Obj>, x: string)
    ensures forall i :: 0 <= i < |s| && IsItemObj(NamedHidden(s, x)[i]) && NamedHidden(s, x)[i].name == Some(x) ==>
      !NamedHidden(s, x)[i].visible
    ensures forall i :: 0 <= i < |s| && IsItemObj(LocationHidden(s, x)[i]) && LocationHidden(s, x)[i].location == Some(x) ==>
      !LocationHidden(s, x)[i].visible
    ensures NamedHidden(NamedHidden(s, x), x) == NamedHidden(s, x)
    ensures LocationHidden(LocationHidden(s, x), x) == LocationHidden(s, x)
  {
  }

  // ----- setItemByName -----

  /**
   * `setItemByName(name)` throws exactly when no "items" object has that name
   * while some item or head object has another name. When it does not throw,
   * every item or head object with that name is shown, every other one at the
   * found item's location is hidden, whichever body it came with, and all else
   * stays as it was.
   */
  lemma ItemSelectionEffect(s: seq<Obj>, name: string)
    ensures var (r, ok) := ItemSelection(s, name);
      var t := ItemTarget(s, name);
      (ok <==> t.Some? || forall i :: 0 <= i < |s| && Selectable(s[i]) ==> s[i].name == Some(name)) &&
      (ok ==> (|r| == |s| &&
         forall i :: 0 <= i < |s| ==>
           (!Selectable(s[i]) ==> r[i] == s[i]) &&
           (Selectable(s[i]) && s[i].name == Some(name) ==> r[i] == s[i].(visible := true)) &&
           (Selectable(s[i]) && s[i].name != Some(name) ==>
              t.Some? &&
              (s[i].location == t.value.location ==> r[i] == s[i].(visible := false)) &&
              (s[i].location != t.value.location ==> r[i] == s[i]))))
  {
    var t := ItemTarget(s, name);
    var step := ChooseStep(name, t);
    TraverseSucceeds(s, step);
    if ItemSelection(s, name).1 {
      forall i | 0 <= i < |s|
        ensures ItemSelection(s, name).0[i] == ChooseAt(s[i], name, t).0 && ChooseAt(s[i], name, t).1
      {
        TraverseFinished(s, step, i);
      }
    }
  }

  /** Once `setItemByName(name)` has gone through, calling it again changes nothing. */
  lemma ItemSelectionIdempotent(s: seq<Obj>, name: string)
    requires ItemSelection(s, name).1
    ensures ItemSelection(ItemSelection(s, name).0, name) == (ItemSelection(s, name).0, true)
  {
    var r := ItemSelection(s, name).0;
    ItemSelectionEffect(s, name);
    LastIndexSameMatches(r, s, ItemObjNamed(name));
    var t := ItemTarget(s, name);
    var t' := ItemTarget(r, name);
    assert t.Some? <==> t'.Some?;
    assert t.Some? ==> t'.value.location == t.value.location;
    forall i | 0 <= i < |r|
      ensures ChooseStep(name, t')(r[i]) == (r[i], true)
    {
    }
    TraverseIdentity(r, ChooseStep(name, t'));
  }

  // ----- setSkinByName -----

  /** What the skin does to one part: the texture of its slot, and the skin's `inv_data` on the "lower" material only. */
  predicate Reskinned(p: Part, q: Part, b: SkinBundle)
  {
    if !p.Mesh? then q == p
    else
      q.Mesh? && q.skeleton == p.skeleton && q.material.name == p.material.name &&
      q.material.texture == (if p.material.name == LowerSlot then b.lower
                             else if p.material.name == UpperSlot then b.upper
                             else if p.material.name == HeadSlot then b.head
                             else p.material.texture) &&
      q.material.invData == (if p.material.name == LowerSlot then b.invData else p.material.invData)
  }

  predicate HasHeadMesh(o: Obj)
  {
    exists j :: 0 <= j < |o.parts| && o.parts[j].Mesh? && o.parts[j].material.name == HeadSlot
  }

  /**
   * `setSkinByName(name)`: a name missing from the map throws and a bundle
   * without lower or upper texture is refused, both leaving the scene as it
   * was; it throws on an undefined head texture exactly when a targeted object
   * has a "head" mesh; when it applies, only the meshes of targeted objects
   * change, as `Reskinned` says.
   */
  lemma SkinSelectionEffect(s: seq<Obj>, sel: Option<string>, m: map<string, SkinBundle>, name: string)
    ensures var (r, out) := SkinSelection(s, sel, m, name);
      (out == UnknownSkin <==> name !in m) &&
      (out == MissingTexture <==> name in m && (m[name].lower.None? || m[name].upper.None?)) &&
      (out == UnknownSkin || out == MissingTexture ==> r == s) &&
      (out == HeadMissing <==>
         name in m && m[name].lower.Some? && m[name].upper.Some? && m[name].head.None? &&
         exists i :: 0 <= i < |s| && SkinTarget(s[i], sel) && HasHeadMesh(s[i])) &&
      (out == Applied ==> (|r| == |s| &&
         forall i :: 0 <= i < |s| ==>
           (!SkinTarget(s[i], sel) ==> r[i] == s[i]) &&
           (SkinTarget(s[i], sel) ==>
              r[i].name == s[i].name && r[i].category == s[i].category && r[i].location == s[i].location &&
              r[i].visible == s[i].visible && r[i].invData == s[i].invData && |r[i].parts| == |s[i].parts| &&
              forall j :: 0 <= j < |s[i].parts| ==> Reskinned(s[i].parts[j], r[i].parts[j], m[name]))))
  {
    if name in m && m[name].lower.Some? && m[name].upper.Some? {
      var b := m[name];
      var step := SkinObjStep(sel, b);
      TraverseSucceeds(s, step);
      forall i | 0 <= i < |s|
        ensures step(s[i]).1 <==> !(SkinTarget(s[i], sel) && b.head.None? && HasHeadMesh(s[i]))
      {
        if SkinTarget(s[i], sel) {
          TraverseSucceeds(s[i].parts, SkinPartStep(b));
        }
      }
      if Traverse(s, step).1 {
        var r := Traverse(s, step).0;
        forall i | 0 <= i < |s|
          ensures r[i] == step(s[i]).0 && step(s[i]).1
        {
          TraverseFinished(s, step, i);
        }
        forall i, j | 0 <= i < |s| && SkinTarget(s[i], sel) && 0 <= j < |s[i].parts|
          ensures Reskinned(s[i].parts[j], r[i].parts[j], b)
        {
          TraverseFinished(s[i].parts, SkinPartStep(b), j);
        }
      }
    }
  }

  /** A skin that assembly put into the map is applied without throwing, whatever the scene. */
  lemma AssembledSkinApplies(skins: seq<Skin>, data: seq<Result>, s: seq<Obj>, sel: Option<string>, name: string)
    requires name in Assembled(map[], skins, data)
    ensures SkinSelection(s, sel, Assembled(map[], skins, data), name).1 == Applied
  {
    AssembledEntry(map[], skins, data, name);
    SkinSelectionEffect(s, sel, Assembled(map[], skins, data), name);
  }

  /**
   * If the results come from `loadResources`, whatever payloads the loaders
   * hand back, every skin of the catalog ends up in `skinTextureMap`.
   */
  lemma CatalogSkinsAssembled(skins: seq<Skin>, reqs: seq<Request>, ps: seq<Payload>, m: map<string, SkinBundle>, i: nat)
    requires |ps| == |reqs| && 3 * |skins| <= |reqs| && i < |skins|
    requires forall t :: 0 <= t < |skins| ==>
               reqs[3 * t] == Request(TextureLoader, skins[t].lower, skins[t].name, LowerSlot, skins[t].invData) &&
               reqs[3 * t + 1] == Request(TextureLoader, skins[t].upper, skins[t].name, UpperSlot, skins[t].invData) &&
               reqs[3 * t + 2] == Request(TextureLoader, skins[t].head, skins[t].name, HeadSlot, skins[t].invData)
    ensures skins[i].name in Assembled(m, skins, Resolved(reqs, ps))
    ensures Filled(Assembled(m, skins, Resolved(reqs, ps))[skins[i].name])
  {
    SkinRequestsFill(reqs, ps, skins[i], 3 * i);
    AssembledEntry(m, skins, Resolved(reqs, ps), skins[i].name);
  }

  /** `r` holds the objects of `s` with the same names, categories and visibility. */
  predicate SameTags(s: seq<Obj>, r: seq<Obj>)
  {
    |r| == |s| &&
    forall i :: 0 <= i < |s| ==> r[i].name == s[i].name && r[i].category == s[i].category && r[i].visible == s[i].visible
  }

  /** What a default state relies on from an item selection: categories stay, bodies are untouched, the item is on. */
  predicate ItemSelected(s: seq<Obj>, r: seq<Obj>, name: string)
  {
    |r| == |s| &&
    forall i :: 0 <= i < |s| ==>
      r[i].category == s[i].category && r[i].name == s[i].name &&
      (IsBodyObj(s[i]) ==> r[i] == s[i]) &&
      (Selectable(s[i]) && s[i].name == Some(name) ==> r[i].visible)
  }

  lemma ItemSelectionSelects(s: seq<Obj>, name: string)
    requires ItemSelection(s, name).1
    ensures ItemSelected(s, ItemSelection(s, name).0, name)
  {
    ItemSelectionEffect(s, name);
  }

  /** Applying a skin changes only the meshes: names, categories and visibility stay. */
  lemma SkinSelectionKeepsTags(s: seq<Obj>, sel: Option<string>, m: map<string, SkinBundle>, name: string)
    requires SkinSelection(s, sel, m, name).1 in {Applied, MissingTexture}
    ensures SameTags(s, SkinSelection(s, sel, m, name).0)
  {
    SkinSelectionEffect(s, sel, m, name);
  }

  /**
   * When a default state goes through, its pants are on and the only visible
   * body is its own: the item selections touch no body, and the skin changes
   * no object's visibility.
   */
  lemma DressedWears(s: seq<Obj>, sel: Option<string>, m: map<string, SkinBundle>, o: Outfit)
    requires Dressed(s, sel, m, o).2
    ensures |Dressed(s, sel, m, o).0| == |s|
    ensures forall i :: 0 <= i < |s| && Selectable(Dressed(s, sel, m, o).0[i]) && Dressed(s, sel, m, o).0[i].name == Some(o.pants) ==>
              Dressed(s, sel, m, o).0[i].visible
    ensures forall i :: 0 <= i < |s| && IsBodyObj(Dressed(s, sel, m, o).0[i]) && Dressed(s, sel, m, o).0[i].visible ==>
              Dressed(s, sel, m, o).0[i].name == Some(o.body)
  {
    var (s1, sel1) := BodySelection(ItemsHidden(s), o.body, sel);
    BodySelectionExclusive(ItemsHidden(s), o.body, sel);
    var s2 := ItemSelection(s1, o.shirt).0;
    ItemSelectionSelects(s1, o.shirt);
    var s3 := ItemSelection(s2, o.pants).0;
    ItemSelectionSelects(s2, o.pants);
    SkinSelectionKeepsTags(s3, sel1, m, o.skin);
    var r := SkinSelection(s3, sel1, m, o.skin).0;
    assert r == Dressed(s, sel, m, o).0;
    forall i | 0 <= i < |s| && IsBodyObj(r[i]) && r[i].visible
      ensures r[i].name == Some(o.body)
    {
      assert s3[i] == s2[i] && s2[i] == s1[i];
    }
  }

  // ----- composition -----

  function NameCount(s: seq<Obj>, name: string): nat
  {
    if s == [] then 0
    else NameCount(s[..|s| - 1], name) + (if s[|s| - 1].name == Some(name) then 1 else 0)
  }

  lemma {:induction false} NameCountPresent(s: seq<Obj>, name: string)
    ensures NameCount(s, name) > 0 <==> NamePresent(s, name)
  {
    if s != [] {
      NameCountPresent(s[..|s| - 1], name);
      assert forall i :: 0 <= i < |s| - 1 ==> s[..|s| - 1][i] == s[i];
    }
  }

  /**
   * The item loop never adds an object whose name is already in the scene, so
   * it adds at most one object of each name, and none for a name already present.
   */
  lemma {:induction false} ComposedItemsDeduplicate(s: seq<Obj>, c: Config, data: seq<Result>, xs: seq<string>, name: string)
    ensures var r := ComposedItems(s, c, data, xs).0;
      NameCount(r, name) == (if NamePresent(s, name) then NameCount(s, name) else if NamePresent(r, name) then 1 else 0)
  {
    NameCountPresent(s, name);
    if xs != [] {
      var pre := xs[..|xs| - 1];
      ComposedItemsDeduplicate(s, c, data, pre, name);
      var (s', ok) := ComposedItems(s, c, data, pre);
      var r := ComposedItems(s, c, data, xs).0;
      NameCountPresent(s', name);
      NameCountPresent(r, name);
      if r != s' {
        var x := xs[|xs| - 1];
        var j := FirstIndex(data, ResultNamed(x));
        var o := ItemObjOf(x, FindItem(c.items, x), data[j]);
        assert r == s' + [o] && r[..|r| - 1] == s';
        assert o.name.Some? ==> o.name == Some(x) && !NamePresent(s', x);
        if o.name == Some(name) {
          assert NamePresent(r, name) by { assert r[|r| - 1] == o; }
        } else if NamePresent(r, name) {
          var i :| 0 <= i < |r| && r[i].name == Some(name);
          assert i < |s'| && s'[i] == r[i];
        }
      }
    }
  }

  /**
   * Across all bodies, a name that is no body's name ends up on at most one
   * object when the scene did not have it before: each item is added once,
   * however many bodies list it.
   */
  lemma {:induction false} ComposedItemsOnce(s: seq<Obj>, c: Config, data: seq<Result>, bs: seq<Body>, name: string)
    requires forall b :: b in bs ==> b.name != name
    requires !NamePresent(s, name)
    ensures NameCount(Composed(s, c, data, bs).0, name) <= 1
    decreases |bs|, 0
  {
    NameCountPresent(s, name);
    if bs != [] {
      var pre := bs[..|bs| - 1];
      var b := bs[|bs| - 1];
      assert forall x :: x in pre ==> x in bs;
      ComposedItemsOnce(s, c, data, pre, name);
      var (s', ok) := Composed(s, c, data, pre);
      if ok {
        ComposedBodyOnce(s', c, data, b, name);
      }
    }
  }

  lemma ComposedBodyOnce(s: seq<Obj>, c: Config, data: seq<Result>, b: Body, name: string)
    requires b.name != name && NameCount(s, name) <= 1
    ensures NameCount(ComposedBody(s, c, data, b).0, name) <= 1
  {
    NameCountPresent(s, name);
    ComposedItemsDeduplicate(s, c, data, b.items, name);
    var k := FirstIndex(data, ResultNamed(b.name));
    if k < |data| && data[k].payload.Gltf? {
      var (s', ok) := ComposedItems(s, c, data, b.items);
      if ok {
        var r := s' + [BodyObjOf(b, data[k])];
        assert r[..|r| - 1] == s';
      }
    }
  }

  /**
   * One body adds hidden objects only: first items named after its item list
   * (or untagged), then, unless the loop threw, the body itself as the last
   * object. So the body comes after its items in the scene.
   */
  lemma ComposedBodyOrder(s: seq<Obj>, c: Config, data: seq<Result>, b: Body)
    ensures |s| <= |ComposedBody(s, c, data, b).0| && ComposedBody(s, c, data, b).0[..|s|] == s
    ensures AddedHidden(s, ComposedBody(s, c, data, b).0)
    ensures var (r, ok) := ComposedBody(s, c, data, b);
      if ok && |s| < |r| then
        AddedFrom(s, r[..|r| - 1], b.items) && !r[|r| - 1].visible &&
        r[|r| - 1].name == Some(b.name) && r[|r| - 1].category == Some(b.category)
      else AddedFrom(s, r, b.items)
  {
    var k := FirstIndex(data, ResultNamed(b.name));
    if k < |data| && data[k].payload.Gltf? {
      ComposedItemsAdded(s, c, data, b.items);
      var s' := ComposedItems(s, c, data, b.items).0;
      if ComposedItems(s, c, data, b.items).1 {
        var r := s' + [BodyObjOf(b, data[k])];
        assert r[..|r| - 1] == s';
        assert r[..|s|] == s'[..|s|];
      }
    }
  }

  predicate AddedHidden(s: seq<Obj>, r: seq<Obj>)
  {
    forall i :: |s| <= i < |r| ==> !r[i].visible
  }

  /** Every object of `r` past the prefix `s` is hidden and either untagged or named from `xs`. */
  predicate AddedFrom(s: seq<Obj>, r: seq<Obj>, xs: seq<string>)
  {
    forall i :: |s| <= i < |r| ==> !r[i].visible && (r[i].name.None? || r[i].name.value in xs)
  }

  /** The objects the item loop adds are hidden and named after the list (or untagged). */
  lemma {:induction false} ComposedItemsAdded(s: seq<Obj>, c: Config, data: seq<Result>, xs: seq<string>)
    ensures AddedFrom(s, ComposedItems(s, c, data, xs).0, xs)
  {
    if xs != [] {
      var pre := xs[..|xs| - 1];
      var x := xs[|xs| - 1];
      ComposedItemsAdded(s, c, data, pre);
      var s' := ComposedItems(s, c, data, pre).0;
      var r := ComposedItems(s, c, data, xs).0;
      var j := FirstIndex(data, ResultNamed(x));
      forall i | |s| <= i < |r|
        ensures !r[i].visible && (r[i].name.None? || r[i].name.value in xs)
      {
        if i < |s'| {
          assert r[i] == s'[i];
          assert s'[i].name.Some? ==> s'[i].name.value in pre;
        } else {
          assert r == s' + [ItemObjOf(x, FindItem(c.items, x), data[j])];
        }
      }
    }
  }

  // ----- publishInvData -----

  lemma {:induction false} PublishedAppend(s: seq<Obj>, t: seq<Obj>)
    ensures PublishedInvData(s + t) == PublishedInvData(s) + PublishedInvData(t)
  {
    if t == [] {
      assert s + t == s;
    } else {
      var u, t' := s + t, t[..|t| - 1];
      assert u[..|u| - 1] == s + t';
      assert u[|u| - 1] == t[|t| - 1];
      PublishedAppend(s, t');
      PublishedLast(u);
      PublishedLast(t);
      ConcatAssoc(PublishedInvData(s), PublishedInvData(t'), ObjInvData(t[|t| - 1]));
    }
  }

  lemma PublishedLast(u: seq<Obj>)
    requires u != []
    ensures PublishedInvData(u) == PublishedInvData(u[..|u| - 1]) + ObjInvData(u[|u| - 1])
  {
  }

  lemma ConcatAssoc<T>(a: seq<T>, b: seq<T>, c: seq<T>)
    ensures (a + b) + c == a + (b + c)
  {
  }

  /** Objects appended after `s` that are all hidden add nothing to the published list. */
  lemma {:induction false} PublishedHiddenSuffix(s: seq<Obj>, r: seq<Obj>)
    requires |s| <= |r| && r[..|s|] == s && AddedHidden(s, r)
    ensures PublishedInvData(r) == PublishedInvData(s)
    decreases |r|
  {
    if |r| == |s| {
      assert r == r[..|s|];
    } else {
      var r' := r[..|r| - 1];
      assert r'[..|s|] == s;
      PublishedHiddenSuffix(s, r');
      PublishedLast(r);
    }
  }

  /** Composition adds only hidden objects, so it never changes what is published. */
  lemma {:induction false} ComposedPublishesNothing(s: seq<Obj>, c: Config, data: seq<Result>, bs: seq<Body>)
    ensures |s| <= |Composed(s, c, data, bs).0| && Composed(s, c, data, bs).0[..|s|] == s
    ensures AddedHidden(s, Composed(s, c, data, bs).0)
    ensures PublishedInvData(Composed(s, c, data, bs).0) == PublishedInvData(s)
  {
    if bs != [] {
      ComposedPublishesNothing(s, c, data, bs[..|bs| - 1]);
      var s' := Composed(s, c, data, bs[..|bs| - 1]).0;
      if Composed(s, c, data, bs[..|bs| - 1]).1 {
        ComposedBodyOrder(s', c, data, bs[|bs| - 1]);
        var r := ComposedBody(s', c, data, bs[|bs| - 1]).0;
        assert r[..|s|] == s'[..|s|];
        assert forall i :: |s| <= i < |r| ==> !r[i].visible by {
          forall i | |s| <= i < |r|
            ensures !r[i].visible
          {
            if i < |s'| {
              assert r[i] == s'[i];
            }
          }
        }
      }
    }
    PublishedHiddenSuffix(s, Composed(s, c, data, bs).0);
  }

  /**
   * A visible body publishes its own `inv_data` and then the `inv_data` of its
   * materials; after a skin is applied to it, the lower material's entry is the
   * skin's.
   */
  lemma SkinPublished(o: Obj, b: SkinBundle, j: nat)
    requires o.visible && IsBodyObj(o) && j < |o.parts|
    requires o.parts[j].Mesh? && o.parts[j].material.name == LowerSlot && b.invData.Some?
    requires Traverse(o.parts, SkinPartStep(b)).1
    ensures ObjInvData(o)[0] == o.invData
    ensures var d := ObjInvData(o.(parts := Traverse(o.parts, SkinPartStep(b)).0));
      d[0] == o.invData && exists k :: 1 <= k < |d| && d[k] == b.invData
  {
    var ps := Traverse(o.parts, SkinPartStep(b)).0;
    TraverseFinished(o.parts, SkinPartStep(b), j);
    MaterialInvDataMember(ps, j);
    var ms := MaterialInvData(ps);
    var k :| 0 <= k < |ms| && ms[k] == b.invData;
    assert ObjInvData(o.(parts := ps)) == [o.invData] + ms;
    assert ObjInvData(o.(parts := ps))[k + 1] == b.invData;
  }

  /**
   * After a skin is applied, the published list holds the entry of a targeted
   * visible body with a "lower" material, followed later by the skin's entry.
   */
  lemma SkinAppliedPublished(s: seq<Obj>, sel: Option<string>, m: map<string, SkinBundle>, name: string, i: nat, j: nat)
    requires SkinSelection(s, sel, m, name).1 == Applied
    requires i < |s| && s[i].visible && IsBodyObj(s[i]) && SkinTarget(s[i], sel)
    requires j < |s[i].parts| && s[i].parts[j].Mesh? && s[i].parts[j].material.name == LowerSlot
    requires name in m && m[name].invData.Some?
    ensures var p := PublishedInvData(SkinSelection(s, sel, m, name).0);
      exists k1, k2 :: 0 <= k1 < k2 < |p| && p[k1] == s[i].invData && p[k2] == m[name].invData
  {
    var b := m[name];
    var r := SkinSelection(s, sel, m, name).0;
    TraverseFinished(s, SkinObjStep(sel, b), i);
    var o' := s[i].(parts := Traverse(s[i].parts, SkinPartStep(b)).0);
    assert r[i] == o';
    SkinPublished(s[i], b, j);
    var d := ObjInvData(o');
    var k :| 1 <= k < |d| && d[k] == b.invData;
    PublishedAt(r, i, 0);
    PublishedAt(r, i, k);
  }

  /** Entry `k` of object `i` sits in the published list right after the entries of the objects before it. */
  lemma PublishedAt(r: seq<Obj>, i: nat, k: nat)
    requires i < |r| && k < |ObjInvData(r[i])|
    ensures |PublishedInvData(r[..i])| + k < |PublishedInvData(r)|
    ensures PublishedInvData(r)[|PublishedInvData(r[..i])| + k] == ObjInvData(r[i])[k]
  {
    assert r == r[..i] + [r[i]] + r[i + 1..];
    PublishedAround(r[..i], r[i], r[i + 1..]);
  }

  /** The published list around one object: what comes before it, its own entries, then the rest. */
  lemma PublishedAround(a: seq<Obj>, o: Obj, c: seq<Obj>)
    ensures PublishedInvData(a + [o] + c) == PublishedInvData(a) + ObjInvData(o) + PublishedInvData(c)
  {
    PublishedAppend(a + [o], c);
    PublishedAppend(a, [o]);
    PublishedSingle(o);
  }

  lemma PublishedSingle(o: Obj)
    ensures PublishedInvData([o]) == ObjInvData(o)
  {
    assert [o][..0] == [];
  }

  lemma {:induction false} MaterialInvDataMember(ps: seq<Part>, j: nat)
    requires j < |ps| && ps[j].Mesh? && ps[j].material.invData.Some?
    ensures ps[j].material.invData in MaterialInvData(ps)
  {
    if j < |ps| - 1 {
      MaterialInvDataMember(ps[..|ps| - 1], j);
    }
  }
}
