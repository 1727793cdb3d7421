/**
 * The selection state of js/prototype.js: the scene and the module-level
 * variables `selectedBodyName`, `curSex`, `curBodyNumber` and `curHeadNumber`.
 * Every operation walks the scene the way its `scene.traverse` callback does
 * and is proved to leave the scene its specification function describes.
 */
module PrototypeSession {
  import opened Common
  import opened PrototypeLoad
  import opened PrototypeScene

  /** The untagged objects `initWebGL` puts in the scene: two lights, the floor and the grid. */
  const Fixtures: seq<Node> := seq(4, i => Node(Untagged, "", "", "", true, "", []))

  /** Copies position, rotation and scale onto each bone from the body bone with its index, until an index has no body bone. */
  method CopyPose(bones: array<Bone>, body: seq<Bone>) returns (ok: bool)
    modifies bones
    ensures ok <==> bones.Length <= |body|
    ensures forall i :: 0 <= i < bones.Length && i < |body| ==>
              bones[i] == old(bones[i]).(position := body[i].position, rotation := body[i].rotation, scale := body[i].scale)
    ensures forall i :: |body| <= i < bones.Length ==> bones[i] == old(bones[i])
  {
    var i := 0;
    while i < bones.Length
      invariant 0 <= i <= bones.Length && i <= |body|
      invariant forall j :: 0 <= j < i ==>
                  bones[j] == old(bones[j]).(position := body[j].position, rotation := body[j].rotation, scale := body[j].scale)
      invariant forall j :: i <= j < bones.Length ==> bones[j] == old(bones[j])
    {
      if i == |body| {
        return false;
      }
      bones[i] := bones[i].(position := body[i].position, rotation := body[i].rotation, scale := body[i].scale);
      i := i + 1;
    }
    return true;
  }

  /** The skeleton of the last skinned mesh among `parts`, as the body traversal in `addToScene` finds it. */
  method FindSkeleton(parts: seq<Part>) returns (r: Option<seq<Bone>>)
    ensures r == BodySkeleton(parts)
  {
    r := None;
    var i := 0;
    while i < |parts|
      invariant 0 <= i <= |parts|
      invariant r == BodySkeleton(parts[..i])
    {
      assert parts[..i + 1][..i] == parts[..i];
      if IsSkinned(parts[i]) {
        r := parts[i].skeleton;
      }
      i := i + 1;
    }
    assert parts[..i] == parts;
  }

  /** Retargets a fresh clone of an item's parts onto the body skeleton; `None` when a bone copy throws. */
  method RetargetParts(parts: seq<Part>, skeleton: Option<seq<Bone>>) returns (r: Option<seq<Part>>)
    ensures r == RetargetedParts(parts, skeleton)
  {
    var out := [];
    var i := 0;
    while i < |parts|
      invariant 0 <= i <= |parts|
      invariant RetargetedParts(parts[..i], skeleton) == Some(out)
    {
      assert parts[..i + 1][..i] == parts[..i];
      var p := parts[i];
      if IsSkinned(p) {
        var bones := new Bone[|p.skeleton.value|](j requires 0 <= j < |p.skeleton.value| => p.skeleton.value[j]);
        var ok := CopyPose(bones, Bones(skeleton));
        if !ok {
          RetargetedPartsStopped(parts, skeleton, i + 1);
          return None;
        }
        assert bones[..] == PoseFrom(p.skeleton.value, Bones(skeleton));
        p := Mesh(p.material, Some(bones[..]));
      }
      out := out + [p];
      i := i + 1;
    }
    assert parts[..i] == parts;
    return Some(out);
  }

  class Session {
    var scene: seq<Node>
    var selectedBodyName: string
    var curSex: string
    var curBodyNumber: string
    var curHeadNumber: string

    /** The state once `initWebGL` has built the scene and before anything is composed. */
    constructor ()
      ensures scene == Fixtures
      ensures selectedBodyName == "Waiting.." && curSex == "" && curBodyNumber == "1" && curHeadNumber == "1"
    {
      scene := Fixtures;
      selectedBodyName := "Waiting..";
      curSex := "";
      curBodyNumber := "1";
      curHeadNumber := "1";
    }

    /**
     * `addToScene`: appends the bundle's body, then its items, hidden and
     * tagged with their owner; adds nothing without a body entry or an
     * animation, and stops at the item whose bone copy throws.
     */
    method AddToScene(ls: seq<Loaded>) returns (outcome: Outcome)
      modifies this`scene
      ensures scene == old(scene) + Composed(ls).0
      ensures outcome == Composed(ls).1
    {
      var k := 0;
      while k < |ls| && ls[k].category != BodyCategoryName
        invariant 0 <= k <= |ls|
        invariant forall j :: 0 <= j < k ==> ls[j].category != BodyCategoryName
      {
        k := k + 1;
      }
      assert k == FirstIndex(ls, IsBodyAsset());
      if k == |ls| {
        return NoBody;
      }
      var body := ls[k];
      if body.model.animations == 0 {
        return NoAnimation;
      }
      var skeleton := FindSkeleton(body.model.parts);
      scene := scene + [BodyNodeOf(body)];
      var ok := AddItems(ls, body.name, skeleton);
      return if ok then Added else RetargetFailed;
    }

    /** The item visit of `addToScene`: appends each item entry, retargeted onto `skeleton`, until a bone copy throws. */
    method AddItems(ls: seq<Loaded>, owner: string, skeleton: Option<seq<Bone>>) returns (ok: bool)
      modifies this`scene
      ensures scene == old(scene) + ItemNodes(ls, owner, skeleton).0
      ensures ok == ItemNodes(ls, owner, skeleton).1
    {
      var items := [];
      var i := 0;
      while i < |ls|
        invariant 0 <= i <= |ls|
        invariant ItemNodes(ls[..i], owner, skeleton) == (items, true)
        invariant scene == old(scene) + items
      {
        assert ls[..i + 1][..i] == ls[..i];
        if ls[i].category == ItemCategoryName {
          var parts := RetargetParts(ls[i].model.parts, skeleton);
          if parts.None? {
            assert ItemNodes(ls[..i + 1], owner, skeleton) == (items, false);
            ItemNodesStopped(ls, owner, skeleton, i + 1);
            return false;
          }
          var node := ItemNodeOf(ls[i], owner, parts.value);
          items := items + [node];
          scene := scene + [node];
        }
        i := i + 1;
      }
      assert ls[..i] == ls;
      return true;
    }

    method RemoveAllItems()
      modifies this`scene
      ensures scene == ItemsHidden(old(scene))
    {
      var s := scene;
      var i := 0;
      while i < |s|
        invariant 0 <= i <= |s| && |s| == |scene|
        invariant forall j :: 0 <= j < i ==> s[j] == HideItem(scene[j])
        invariant forall j :: i <= j < |s| ==> s[j] == scene[j]
      {
        if IsItem(s[i]) {
          s := s[i := s[i].(visible := false)];
        }
        i := i + 1;
      }
      scene := s;
    }

    /** `setItemByName`: `found` tells whether the selected body owns an item with that name. */
    method SetItemByName(name: string) returns (found: bool)
      modifies this`scene
      ensures scene == ItemSelected(old(scene), name, selectedBodyName)
      ensures found <==> HasOwned(old(scene), name, selectedBodyName)
    {
      var target: Option<nat> := None;
      var i := 0;
      while i < |scene|
        invariant 0 <= i <= |scene|
        invariant target == LastIndex(scene[..i], OwnedBy(name, selectedBodyName))
      {
        assert scene[..i + 1][..i] == scene[..i];
        if Owned(scene[i], name, selectedBodyName) {
          target := Some(i);
        }
        i := i + 1;
      }
      assert scene[..i] == scene;
      if target.None? {
        return false;
      }
      var loc := scene[target.value].location;
      var s := scene;
      i := 0;
      while i < |s|
        invariant 0 <= i <= |s| && |s| == |scene|
        invariant forall j :: 0 <= j < i ==> s[j] == SelectAt(scene[j], name, selectedBodyName, loc)
        invariant forall j :: i <= j < |s| ==> s[j] == scene[j]
      {
        if IsItem(s[i]) {
          if s[i].location == loc {
            s := s[i := s[i].(visible := false)];
          }
          if Owned(s[i], name, selectedBodyName) {
            s := s[i := s[i].(visible := true)];
          }
        }
        i := i + 1;
      }
      scene := s;
      return true;
    }

    /** `remItemByName`: `found` tells whether the selected body owns an item with that name. */
    method RemItemByName(name: string) returns (found: bool)
      modifies this`scene
      ensures scene == OwnedHidden(old(scene), name, selectedBodyName)
      ensures found <==> HasOwned(old(scene), name, selectedBodyName)
    {
      var s := scene;
      found := false;
      var i := 0;
      while i < |s|
        invariant 0 <= i <= |s| && |s| == |scene|
        invariant forall j :: 0 <= j < i ==> s[j] == HideOwned(scene[j], name, selectedBodyName)
        invariant forall j :: i <= j < |s| ==> s[j] == scene[j]
        invariant found <==> exists j :: 0 <= j < i && Owned(scene[j], name, selectedBodyName)
      {
        if Owned(s[i], name, selectedBodyName) {
          found := true;
          s := s[i := s[i].(visible := false)];
        }
        i := i + 1;
      }
      scene := s;
    }

    /** `remItemByLocation`: `found` tells whether any item, of any owner, sits at that location. */
    method RemItemByLocation(loc: string) returns (found: bool)
      modifies this`scene
      ensures scene == LocationHidden(old(scene), loc)
      ensures found <==> HasItemAt(old(scene), loc)
    {
      var s := scene;
      found := false;
      var i := 0;
      while i < |s|
        invariant 0 <= i <= |s| && |s| == |scene|
        invariant forall j :: 0 <= j < i ==> s[j] == HideAt(scene[j], loc)
        invariant forall j :: i <= j < |s| ==> s[j] == scene[j]
        invariant found <==> exists j :: 0 <= j < i && IsItem(scene[j]) && scene[j].location == loc
      {
        if IsItem(s[i]) && s[i].location == loc {
          found := true;
          s := s[i := s[i].(visible := false)];
        }
        i := i + 1;
      }
      scene := s;
    }

    /** `defaultItems`: puts on the current sex's shirt and pants, in that order. */
    method DefaultItems()
      modifies this`scene
      ensures scene == ItemsSelected(old(scene), PrototypeScene.DefaultItems(curSex), selectedBodyName)
    {
      var names := PrototypeScene.DefaultItems(curSex);
      if names != [] {
        ghost var s0 := scene;
        var _ := SetItemByName(names[0]);
        ghost var s1 := scene;
        var _ := SetItemByName(names[1]);
        assert names[..1][..0] == [] && names[..1] == [names[0]] && names[..2] == names;
        assert ItemsSelected(s0, names[..1], selectedBodyName) == s1;
      }
    }

    /** `setBodyByName`: `found` tells whether a body with that name is in the scene. */
    method SetBodyByName(name: string) returns (found: bool)
      modifies this`scene, this`selectedBodyName
      ensures (scene, selectedBodyName) == BodySelection(old(scene), name, old(selectedBodyName), curSex)
      ensures found <==> HasBody(old(scene), name)
    {
      ghost var s0 := scene;
      RemoveAllItems();
      var s := scene;
      found := false;
      var i := 0;
      while i < |s|
        invariant 0 <= i <= |s| && |s| == |scene|
        invariant forall j :: 0 <= j < i ==> s[j] == ShowBody(scene[j], name)
        invariant forall j :: i <= j < |s| ==> s[j] == scene[j]
        invariant found <==> exists j :: 0 <= j < i && IsBody(scene[j]) && scene[j].name == name
        invariant selectedBodyName == if found then name else old(selectedBodyName)
        modifies this`selectedBodyName
      {
        if IsBody(s[i]) {
          if s[i].name == name {
            s := s[i := s[i].(visible := true)];
            selectedBodyName := name;
            found := true;
          } else {
            s := s[i := s[i].(visible := false)];
          }
        }
        i := i + 1;
      }
      assert found <==> HasBody(s0, name) by {
        assert forall j :: 0 <= j < |scene| ==> scene[j] == HideItem(s0[j]);
      }
      assert s == BodyShown(ItemsHidden(s0), name);
      scene := s;
      DefaultItems();
    }

    /** `setSex`: nothing when the sex is unchanged; otherwise records it and selects that sex's default body. */
    method SetSex(sex: string)
      modifies this`scene, this`selectedBodyName, this`curSex
      ensures sex == old(curSex) ==> scene == old(scene) && selectedBodyName == old(selectedBodyName) && curSex == old(curSex)
      ensures sex != old(curSex) ==> curSex == sex
      ensures sex != old(curSex) && sex == MaleSex ==>
                (scene, selectedBodyName) == BodySelection(old(scene), MaleDefaultBody, old(selectedBodyName), sex)
      ensures sex != old(curSex) && sex == FemaleSex ==>
                (scene, selectedBodyName) == BodySelection(old(scene), FemaleDefaultBody, old(selectedBodyName), sex)
      ensures sex != MaleSex && sex != FemaleSex ==> scene == old(scene) && selectedBodyName == old(selectedBodyName)
      ensures (scene, selectedBodyName, curSex) == SexSelection(old(scene), old(selectedBodyName), old(curSex), sex)
    {
      if sex == curSex {
        return;
      }
      curSex := sex;
      if curSex == MaleSex {
        var _ := SetBodyByName(MaleDefaultBody);
      } else if curSex == FemaleSex {
        var _ := SetBodyByName(FemaleDefaultBody);
      }
    }

    /** `setBodyByNumbers`: selects the body named after the current sex, body number and head number. */
    method SetBodyByNumbers()
      modifies this`scene, this`selectedBodyName
      ensures (scene, selectedBodyName) ==
              BodySelection(old(scene), BodyName(curSex, curBodyNumber, curHeadNumber), old(selectedBodyName), curSex)
    {
      var _ := SetBodyByName(curSex + "_body_" + curBodyNumber + "_head_" + curHeadNumber);
    }

    method SetBodyByBodyNumber(bodyNumber: string)
      modifies this`scene, this`selectedBodyName, this`curBodyNumber
      ensures curBodyNumber == bodyNumber
      ensures (scene, selectedBodyName) ==
              BodySelection(old(scene), BodyName(curSex, bodyNumber, curHeadNumber), old(selectedBodyName), curSex)
    {
      curBodyNumber := bodyNumber;
      SetBodyByNumbers();
    }

    method SetBodyByHeadNumber(headNumber: string)
      modifies this`scene, this`selectedBodyName, this`curHeadNumber
      ensures curHeadNumber == headNumber
      ensures (scene, selectedBodyName) ==
              BodySelection(old(scene), BodyName(curSex, curBodyNumber, headNumber), old(selectedBodyName), curSex)
    {
      curHeadNumber := headNumber;
      SetBodyByNumbers();
    }

    /** `checkCompleteness`: whether the continue button is shown. */
    method CheckCompleteness() returns (complete: bool)
      ensures complete == Complete(scene)
    {
      var body, lower, upper := false, false, false;
      var i := 0;
      while i < |scene|
        invariant 0 <= i <= |scene|
        invariant body <==> exists j :: 0 <= j < i && IsBody(scene[j]) && scene[j].visible
        invariant lower <==> exists j :: 0 <= j < i && VisibleItemAt(scene[j], LowerLocation)
        invariant upper <==> exists j :: 0 <= j < i && VisibleItemAt(scene[j], UpperLocation)
      {
        var n := scene[i];
        if IsBody(n) && n.visible {
          body := true;
        }
        if IsItem(n) && n.visible {
          if n.location == LowerLocation {
            lower := true;
          }
          if n.location == UpperLocation {
            upper := true;
          }
        }
        i := i + 1;
      }
      complete := body && lower && upper;
    }

    /** `publishInvData`: the list it serialises and logs (the function itself returns nothing). */
    method PublishInvData() returns (paths: seq<InvData>)
      ensures paths == VisibleInvData(scene)
    {
      paths := [];
      var i := 0;
      while i < |scene|
        invariant 0 <= i <= |scene|
        invariant paths == VisibleInvData(scene[..i])
      {
        assert scene[..i + 1][..i] == scene[..i];
        var n := scene[i];
        if (IsBody(n) || IsItem(n)) && n.visible {
          paths := paths + [n.invData];
        }
        i := i + 1;
      }
      assert scene[..i] == scene;
    }
  }
}
