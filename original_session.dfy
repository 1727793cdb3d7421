/**
 * The state of js/original.js: the scene, `skinTextureMap`, and the
 * module-level `selectedBodyName` (undefined until a body is selected),
 * `curSex`, `curBodyNumber` and `curHeadNumber`. Each operation walks the
 * scene as its traversal callback does and is proved to leave the state its
 * specification function describes.
 */
module OriginalSession {
  import opened Common
  import opened Catalog
  import opened OriginalLoad
  import opened OriginalScene

  /** The untagged objects `init` puts in the scene: two lights, the floor and the grid. */
  const Fixtures: seq<Obj> := seq(4, i => Obj(None, None, None, true, None, []))

  /** Retextures the meshes among `parts`, stopping where an undefined head texture throws. */
  method SkinParts(parts: seq<Part>, b: SkinBundle) returns (r: seq<Part>, ok: bool)
    ensures (r, ok) == Traverse(parts, SkinPartStep(b))
  {
    var out := [];
    var i := 0;
    while i < |parts|
      invariant 0 <= i <= |parts|
      invariant Traverse(parts[..i], SkinPartStep(b)) == (out, true)
    {
      assert parts[..i + 1][..i] == parts[..i];
      var p := parts[i];
      if p.Mesh? {
        if p.material.name == LowerSlot {
          p := p.(material := p.material.(texture := b.lower, invData := b.invData));
        }
        if p.material.name == UpperSlot {
          p := p.(material := p.material.(texture := b.upper));
        }
        if p.material.name == HeadSlot {
          p := p.(material := p.material.(texture := b.head));
          if b.head.None? {
            assert parts[..i + 1][i + 1..] == [];
            TraverseStopped(parts, SkinPartStep(b), i + 1);
            return out + [p] + parts[i + 1..], false;
          }
        }
      }
      out := out + [p];
      i := i + 1;
    }
    assert parts[..i] == parts;
    return out, true;
  }

  /** Whether an object in `s` has that name (the presence scan of the composition loop). */
  method NameInScene(s: seq<Obj>, name: string) returns (present: bool)
    ensures present == NamePresent(s, name)
  {
    present := false;
    var i := 0;
    while i < |s|
      invariant 0 <= i <= |s|
      invariant present <==> exists j :: 0 <= j < i && s[j].name == Some(name)
    {
      if s[i].name == Some(name) {
        present := true;
      }
      i := i + 1;
    }
  }

  /** The index of the first result with that name, or `|data|` (a `data.every` scan). */
  method FirstResult(data: seq<Result>, name: string) returns (k: nat)
    ensures k == FirstIndex(data, ResultNamed(name))
  {
    k := 0;
    while k < |data| && data[k].name != name
      invariant 0 <= k <= |data|
      invariant forall j :: 0 <= j < k ==> data[j].name != name
    {
      k := k + 1;
    }
  }

  /** The second `scene.traverse` of `setItemByName`, for the item the first one found. */
  method ChooseAll(s: seq<Obj>, name: string, target: Option<Obj>) returns (r: seq<Obj>, ok: bool)
    ensures (r, ok) == Traverse(s, ChooseStep(name, target))
  {
    ghost var step := ChooseStep(name, target);
    var out := [];
    var i := 0;
    while i < |s|
      invariant 0 <= i <= |s|
      invariant Traverse(s[..i], step) == (out, true)
    {
      assert s[..i + 1][..i] == s[..i];
      var o := s[i];
      if Selectable(o) {
        if o.name == Some(name) {
          o := o.(visible := true);
        } else if target.None? {
          assert s[..i + 1][i + 1..] == [];
          TraverseStopped(s, step, i + 1);
          return out + [o] + s[i + 1..], false;
        } else if o.location == target.value.location {
          o := o.(visible := false);
        }
      }
      out := out + [o];
      i := i + 1;
    }
    assert s[..i] == s;
    return out, true;
  }

  class Session {
    var scene: seq<Obj>
    var skinTextureMap: map<string, SkinBundle>
    var selectedBodyName: Option<string>
    var curSex: string
    var curBodyNumber: string
    var curHeadNumber: string

    /** The state once `init` has built the scene and before anything is loaded. */
    constructor ()
      ensures scene == Fixtures && skinTextureMap == map[] && selectedBodyName == None
      ensures curSex == "male" && curBodyNumber == "1" && curHeadNumber == "1"
    {
      scene := Fixtures;
      skinTextureMap := map[];
      selectedBodyName := None;
      curSex := "male";
      curBodyNumber := "1";
      curHeadNumber := "1";
    }

    /** `setSkinByName`: reports whether it applied, found the bundle incomplete, or threw. */
    method SetSkinByName(name: string) returns (outcome: SkinOutcome)
      modifies this`scene
      ensures (scene, outcome) == SkinSelection(old(scene), selectedBodyName, skinTextureMap, name)
    {
      if name !in skinTextureMap {
        return UnknownSkin;
      }
      var b := skinTextureMap[name];
      if b.lower.None? || b.upper.None? {
        return MissingTexture;
      }
      ghost var step := SkinObjStep(selectedBodyName, b);
      var s := scene;
      var out := [];
      var i := 0;
      while i < |s|
        invariant 0 <= i <= |s|
        invariant Traverse(s[..i], step) == (out, true)
      {
        assert s[..i + 1][..i] == s[..i];
        var o := s[i];
        if o.name == selectedBodyName || selectedBodyName.None? {
          var parts, ok := SkinParts(o.parts, b);
          o := o.(parts := parts);
          if !ok {
            assert s[..i + 1][i + 1..] == [];
            TraverseStopped(s, step, i + 1);
            scene := out + [o] + s[i + 1..];
            return HeadMissing;
          }
        }
        out := out + [o];
        i := i + 1;
      }
      assert s[..i] == s;
      scene := out;
      return Applied;
    }

    /** `setSex`: records the sex and nothing else. */
    method SetSex(sex: string)
      modifies this`curSex
      ensures curSex == sex
    {
      if sex == curSex {
        return;
      }
      curSex := sex;
    }

    method RemoveAllItems()
      modifies this`scene
      ensures scene == ItemsHidden(old(scene))
    {
      var s := scene;
      var i := 0;
      while i < |s|
        invariant 0 <= i <= |s| && |s| == |scene|
        invariant forall j :: 0 <= j < i ==> s[j] == HideItem(scene[j])
        invariant forall j :: i <= j < |s| ==> s[j] == scene[j]
      {
        if IsItemObj(s[i]) {
          s := s[i := s[i].(visible := false)];
        }
        i := i + 1;
      }
      scene := s;
    }

    /** `setBodyByName`: no default items here, and no warning when the body is missing. */
    method SetBodyByName(name: string)
      modifies this`scene, this`selectedBodyName
      ensures (scene, selectedBodyName) == BodySelection(old(scene), name, old(selectedBodyName))
    {
      ghost var s0 := scene;
      RemoveAllItems();
      var s := scene;
      ghost var found := false;
      var i := 0;
      while i < |s|
        invariant 0 <= i <= |s| && |s| == |scene|
        invariant forall j :: 0 <= j < i ==> s[j] == ShowBody(scene[j], name)
        invariant forall j :: i <= j < |s| ==> s[j] == scene[j]
        invariant found <==> exists j :: 0 <= j < i && IsBodyObj(scene[j]) && scene[j].name == Some(name)
        invariant selectedBodyName == if found then Some(name) else old(selectedBodyName)
        modifies this`selectedBodyName
      {
        if IsBodyObj(s[i]) {
          if s[i].name == Some(name) {
            s := s[i := s[i].(visible := true)];
            selectedBodyName := Some(name);
            found := true;
          } else {
            s := s[i := s[i].(visible := false)];
          }
        }
        i := i + 1;
      }
      assert forall j :: 0 <= j < |scene| ==> scene[j] == HideItem(s0[j]);
      assert found <==> HasBody(s0, name);
      assert s == BodySelection(s0, name, old(selectedBodyName)).0;
      scene := s;
    }

    method SetBodyByNumbers()
      modifies this`scene, this`selectedBodyName
      ensures (scene, selectedBodyName) ==
              BodySelection(old(scene), BodyName(curSex, curBodyNumber, curHeadNumber), old(selectedBodyName))
    {
      SetBodyByName(curSex + "_body_" + curBodyNumber + "_head_" + curHeadNumber);
    }

    method SetBodyByBodyNumber(bodyNumber: string)
      modifies this`scene, this`selectedBodyName, this`curBodyNumber
      ensures curBodyNumber == bodyNumber
      ensures (scene, selectedBodyName) ==
              BodySelection(old(scene), BodyName(curSex, bodyNumber, curHeadNumber), old(selectedBodyName))
    {
      curBodyNumber := bodyNumber;
      SetBodyByNumbers();
    }

    method SetBodyByHeadNumber(headNumber: string)
      modifies this`scene, this`selectedBodyName, this`curHeadNumber
      ensures curHeadNumber == headNumber
      ensures (scene, selectedBodyName) ==
              BodySelection(old(scene), BodyName(curSex, curBodyNumber, headNumber), old(selectedBodyName))
    {
      curHeadNumber := headNumber;
      SetBodyByNumbers();
    }

    /** `setItemByName`: `ok` is `false` when it threw. */
    method SetItemByName(name: string) returns (ok: bool)
      modifies this`scene
      ensures (scene, ok) == ItemSelection(old(scene), name)
    {
      var target: Option<Obj> := None;
      var i := 0;
      while i < |scene|
        invariant 0 <= i <= |scene|
        invariant target == ItemTarget(scene[..i], name)
      {
        assert scene[..i + 1][..i] == scene[..i];
        if IsItemObj(scene[i]) && scene[i].name == Some(name) {
          target := Some(scene[i]);
        }
        i := i + 1;
      }
      assert scene[..i] == scene;
      scene, ok := ChooseAll(scene, name, target);
    }

    /** `remItemByName`: hides every item with that name, whatever body it came with. */
    method RemItemByName(name: string)
      modifies this`scene
      ensures scene == NamedHidden(old(scene), name)
    {
      var s := scene;
      var i := 0;
      while i < |s|
        invariant 0 <= i <= |s| && |s| == |scene|
        invariant forall j :: 0 <= j < i ==> s[j] == HideNamed(scene[j], name)
        invariant forall j :: i <= j < |s| ==> s[j] == scene[j]
      {
        if IsItemObj(s[i]) && s[i].name == Some(name) {
          s := s[i := s[i].(visible := false)];
        }
        i := i + 1;
      }
      scene := s;
    }

    method RemItemByLocation(loc: string)
      modifies this`scene
      ensures scene == LocationHidden(old(scene), loc)
    {
      var s := scene;
      var i := 0;
      while i < |s|
        invariant 0 <= i <= |s| && |s| == |scene|
        invariant forall j :: 0 <= j < i ==> s[j] == HideAt(scene[j], loc)
        invariant forall j :: i <= j < |s| ==> s[j] == scene[j]
      {
        if IsItemObj(s[i]) && s[i].location == Some(loc) {
          s := s[i := s[i].(visible := false)];
        }
        i := i + 1;
      }
      scene := s;
    }

    /** `publishInvData`: the list it serialises. */
    method PublishInvData() returns (paths: seq<Option<InvData>>)
      ensures paths == PublishedInvData(scene)
    {
      paths := [];
      var i := 0;
      while i < |scene|
        invariant 0 <= i <= |scene|
        invariant paths == PublishedInvData(scene[..i])
      {
        assert scene[..i + 1][..i] == scene[..i];
        var o := scene[i];
        if o.visible {
          if IsBodyObj(o) {
            var fromMaterials := MaterialsInvData(o.parts);
            paths := paths + [o.invData] + fromMaterials;
          }
          if IsItemObj(o) {
            paths := paths + [o.invData];
          }
        }
        i := i + 1;
      }
      assert scene[..i] == scene;
    }

    /** The material scan inside a visible body. */
    static method MaterialsInvData(parts: seq<Part>) returns (r: seq<Option<InvData>>)
      ensures r == MaterialInvData(parts)
    {
      r := [];
      var i := 0;
      while i < |parts|
        invariant 0 <= i <= |parts|
        invariant r == MaterialInvData(parts[..i])
      {
        assert parts[..i + 1][..i] == parts[..i];
        if parts[i].Mesh? && parts[i].material.invData.Some? {
          r := r + [parts[i].material.invData];
        }
        i := i + 1;
      }
      assert parts[..i] == parts;
    }

    /** The skin loop of `preLoadEverything`: a skin enters the map only when all three textures were found. */
    method AssembleSkins(skins: seq<Skin>, data: seq<Result>)
      modifies this`skinTextureMap
      ensures skinTextureMap == Assembled(old(skinTextureMap), skins, data)
    {
      var i := 0;
      while i < |skins|
        invariant 0 <= i <= |skins|
        invariant skinTextureMap == Assembled(old(skinTextureMap), skins[..i], data)
      {
        assert skins[..i + 1][..i] == skins[..i];
        var b := Gather(data, skins[i].name);
        ghost var before := skinTextureMap;
        if b.lower.Some? && b.upper.Some? && b.head.Some? {
          skinTextureMap := skinTextureMap[skins[i].name := b];
        }
        assert skinTextureMap == if Filled(b) then before[skins[i].name := b] else before;
        i := i + 1;
      }
      assert skins[..i] == skins;
    }

    /** The item loop for one body; `false` when a clone threw. */
    method ComposeItems(c: Config, data: seq<Result>, xs: seq<string>) returns (ok: bool)
      modifies this`scene
      ensures (scene, ok) == ComposedItems(old(scene), c, data, xs)
    {
      var i := 0;
      while i < |xs|
        invariant 0 <= i <= |xs|
        invariant ComposedItems(old(scene), c, data, xs[..i]) == (scene, true)
      {
        assert xs[..i + 1][..i] == xs[..i];
        var x := xs[i];
        var j := FirstResult(data, x);
        if j < |data| {
          var present := NameInScene(scene, x);
          if !present {
            if !data[j].payload.Gltf? {
              ComposedItemsStopped(old(scene), c, data, xs, i + 1);
              return false;
            }
            var entry := GetItemByName(c, x);
            scene := scene + [ItemObjOf(x, entry, data[j])];
          }
        }
        i := i + 1;
      }
      assert xs[..i] == xs;
      return true;
    }

    /** One body of the composition loop: its items, then the body. */
    method ComposeBody(c: Config, data: seq<Result>, b: Body) returns (ok: bool)
      modifies this`scene
      ensures (scene, ok) == ComposedBody(old(scene), c, data, b)
    {
      var k := FirstResult(data, b.name);
      if k == |data| {
        return true;
      }
      if !data[k].payload.Gltf? {
        return false;
      }
      ok := ComposeItems(c, data, b.items);
      if ok {
        scene := scene + [BodyObjOf(b, data[k])];
      }
    }

    /** The composition loop of `preLoadEverything` over the catalog's bodies. */
    method Compose(c: Config, data: seq<Result>) returns (ok: bool)
      modifies this`scene
      ensures (scene, ok) == Composed(old(scene), c, data, c.bodies)
    {
      var i := 0;
      while i < |c.bodies|
        invariant 0 <= i <= |c.bodies|
        invariant Composed(old(scene), c, data, c.bodies[..i]) == (scene, true)
      {
        assert c.bodies[..i + 1][..i] == c.bodies[..i];
        ok := ComposeBody(c, data, c.bodies[i]);
        if !ok {
          ComposedStopped(old(scene), c, data, c.bodies, i + 1);
          return false;
        }
        i := i + 1;
      }
      assert c.bodies[..i] == c.bodies;
      return true;
    }

    /** `defaultMaleState` and `defaultFemaleState`: `ok` is `false` when a step threw. */
    method DefaultState(sex: string, outfit: Outfit) returns (ok: bool)
      modifies this`scene, this`selectedBodyName, this`curSex
      ensures curSex == sex
      ensures (scene, selectedBodyName, ok) == Dressed(old(scene), old(selectedBodyName), skinTextureMap, outfit)
    {
      SetSex(sex);
      RemoveAllItems();
      SetBodyByName(outfit.body);
      ok := SetItemByName(outfit.shirt);
      if !ok {
        return;
      }
      ok := SetItemByName(outfit.pants);
      if !ok {
        return;
      }
      var outcome := SetSkinByName(outfit.skin);
      ok := outcome == Applied || outcome == MissingTexture;
    }

    /**
     * `preLoadEverything` once every request of `loadResources` has resolved
     * into `data`: skins are assembled, bodies and items composed, and the
     * default male state set unless composition threw.
     */
    method PreLoadEverything(c: Config, data: seq<Result>) returns (ok: bool)
      modifies this`scene, this`skinTextureMap, this`selectedBodyName, this`curSex
      ensures skinTextureMap == Assembled(old(skinTextureMap), c.skins, data)
      ensures var (composed, composedOk) := Composed(old(scene), c, data, c.bodies);
        if composedOk then (scene, selectedBodyName, ok) == Dressed(composed, old(selectedBodyName), skinTextureMap, MaleOutfit) && curSex == "male"
        else scene == composed && !ok && selectedBodyName == old(selectedBodyName) && curSex == old(curSex)
    {
      AssembleSkins(c.skins, data);
      ok := Compose(c, data);
      if ok {
        ok := DefaultState("male", MaleOutfit);
      }
    }
  }
}
