/**
 * What the selection and composition steps of js/prototype.js guarantee:
 * the effect of each step on every node, idempotence of item selection,
 * one visible item per location, body exclusivity, the order of the
 * published `inv_data`, and the abort and retargeting rules of composition.
 */
module PrototypeProperties {
  import opened Common
  import opened PrototypeLoad
  import opened PrototypeScene
  import opened Catalog
  import opened PrototypeSession

  /** Items with the same name sit at the same location (each name is one catalog item). */
  ghost predicate ConsistentLocations(s: seq<Node>)
  {
    forall i, j :: 0 <= i < |s| && 0 <= j < |s| && IsItem(s[i]) && IsItem(s[j]) && s[i].name == s[j].name ==>
      s[i].location == s[j].location
  }

  /** All visible items at one location are the same item of the same body. */
  ghost predicate OnePerLocation(s: seq<Node>)
  {
    forall i, j :: 0 <= i < |s| && 0 <= j < |s| && VisibleItemAt(s[i], s[j].location) && VisibleItemAt(s[j], s[i].location) ==>
      s[i].name == s[j].name && s[i].owner == s[j].owner
  }

  /** A step that changes nothing but visibility. */
  ghost predicate OnlyVisibility(s: seq<Node>, r: seq<Node>)
  {
    |r| == |s| && forall i :: 0 <= i < |s| ==> SameTags(r[i], s[i])
  }

  // ----- setItemByName -----

  /**
   * Without an owned item of that name nothing changes. Otherwise, with `k` the
   * last owned match: every owned item of that name becomes visible, every other
   * item at the location of `k`, whatever its owner, is hidden, and every other
   * node is left as it was.
   */
  lemma ItemSelectedEffect(s: seq<Node>, name: string, owner: string)
    ensures !HasOwned(s, name, owner) ==> ItemSelected(s, name, owner) == s
    ensures HasOwned(s, name, owner) ==>
      exists k :: 0 <= k < |s| && Owned(s[k], name, owner) && (forall j :: k < j < |s| ==> !Owned(s[j], name, owner)) &&
        var r := ItemSelected(s, name, owner);
        OnlyVisibility(s, r) &&
        forall i :: 0 <= i < |s| ==>
          (Owned(s[i], name, owner) ==> r[i].visible) &&
          (IsItem(s[i]) && !Owned(s[i], name, owner) && s[i].location == s[k].location ==> !r[i].visible) &&
          (!Owned(s[i], name, owner) && !(IsItem(s[i]) && s[i].location == s[k].location) ==> r[i] == s[i])
  {
    var t := LastIndex(s, OwnedBy(name, owner));
    if !HasOwned(s, name, owner) {
      assert t.None?;
    } else {
      assert t.Some?;
      var k := t.value;
      assert Owned(s[k], name, owner);
    }
  }

  /** Selecting the same item twice is the same as selecting it once. */
  lemma ItemSelectedIdempotent(s: seq<Node>, name: string, owner: string)
    ensures ItemSelected(ItemSelected(s, name, owner), name, owner) == ItemSelected(s, name, owner)
  {
    var r := ItemSelected(s, name, owner);
    match LastIndex(s, OwnedBy(name, owner))
    case None =>
    case Some(k) =>
      assert forall i :: 0 <= i < |s| ==> SameTags(r[i], s[i]);
      LastIndexSameMatches(r, s, OwnedBy(name, owner));
      assert r[k].location == s[k].location;
  }

  /** Item selection keeps at most one visible item per location, given consistent item locations. */
  lemma ItemSelectedKeepsOnePerLocation(s: seq<Node>, name: string, owner: string)
    requires ConsistentLocations(s) && OnePerLocation(s)
    ensures OnePerLocation(ItemSelected(s, name, owner))
  {
    var r := ItemSelected(s, name, owner);
    match LastIndex(s, OwnedBy(name, owner))
    case None =>
    case Some(k) =>
      var loc := s[k].location;
      forall i, j | 0 <= i < |r| && 0 <= j < |r| && VisibleItemAt(r[i], r[j].location) && VisibleItemAt(r[j], r[i].location)
        ensures r[i].name == r[j].name && r[i].owner == r[j].owner
      {
        assert r[i] == SelectAt(s[i], name, owner, loc) && r[j] == SelectAt(s[j], name, owner, loc);
      }
  }

  // ----- remItemByName, remItemByLocation and removeAllItems -----

  /** `remItemByName` hides exactly the owned items with that name; nothing else changes. */
  lemma OwnedHiddenEffect(s: seq<Node>, name: string, owner: string)
    ensures var r := OwnedHidden(s, name, owner);
      OnlyVisibility(s, r) &&
      (forall i :: 0 <= i < |s| ==> (r[i].visible <==> s[i].visible && !Owned(s[i], name, owner))) &&
      !HasOwnedVisible(r, name, owner) &&
      OwnedHidden(r, name, owner) == r
  {
  }

  predicate HasOwnedVisible(s: seq<Node>, name: string, owner: string)
  {
    exists i :: 0 <= i < |s| && Owned(s[i], name, owner) && s[i].visible
  }

  /** `remItemByLocation` hides every item at that location, of any owner; nothing else changes. */
  lemma LocationHiddenEffect(s: seq<Node>, loc: string)
    ensures var r := LocationHidden(s, loc);
      OnlyVisibility(s, r) &&
      (forall i :: 0 <= i < |s| ==> (r[i].visible <==> s[i].visible && !(IsItem(s[i]) && s[i].location == loc))) &&
      (forall i :: 0 <= i < |r| ==> !VisibleItemAt(r[i], loc))
  {
  }

  /** Removing the lower or the upper garment leaves the selection incomplete. */
  lemma LocationHiddenIncomplete(s: seq<Node>, loc: string)
    requires loc == LowerLocation || loc == UpperLocation
    ensures !Complete(LocationHidden(s, loc))
  {
    LocationHiddenEffect(s, loc);
  }

  /** Hiding never breaks the one-item-per-location rule. */
  lemma HidingKeepsOnePerLocation(s: seq<Node>, r: seq<Node>)
    requires OnePerLocation(s) && OnlyVisibility(s, r)
    requires forall i :: 0 <= i < |s| ==> r[i].visible ==> s[i].visible
    ensures OnePerLocation(r)
  {
    forall i, j | 0 <= i < |r| && 0 <= j < |r| && VisibleItemAt(r[i], r[j].location) && VisibleItemAt(r[j], r[i].location)
      ensures r[i].name == r[j].name && r[i].owner == r[j].owner
    {
      assert SameTags(r[i], s[i]) && SameTags(r[j], s[j]);
      assert VisibleItemAt(s[i], s[j].location) && VisibleItemAt(s[j], s[i].location);
    }
  }

  // ----- setBodyByName -----

  /** Selecting items for `owner` changes visibility only, never touches a non-item, and shows only `owner`'s items among `names`. */
  lemma {:induction false} ItemsSelectedScoped(s: seq<Node>, names: seq<string>, owner: string)
    ensures var r := ItemsSelected(s, names, owner);
      OnlyVisibility(s, r) &&
      (forall i :: 0 <= i < |s| && !IsItem(s[i]) ==> r[i] == s[i]) &&
      (forall i :: 0 <= i < |s| && IsItem(s[i]) && r[i].visible ==> s[i].visible || (s[i].owner == owner && s[i].name in names))
  {
    if names != [] {
      var pre := names[..|names| - 1];
      var last := names[|names| - 1];
      ItemsSelectedScoped(s, pre, owner);
      var m := ItemsSelected(s, pre, owner);
      var r := ItemSelected(m, last, owner);
      assert r == ItemsSelected(s, names, owner);
      assert forall x :: x in pre ==> x in names;
      match LastIndex(m, OwnedBy(last, owner))
      case None =>
      case Some(k) =>
        forall i | 0 <= i < |s|
          ensures SameTags(r[i], s[i])
          ensures !IsItem(s[i]) ==> r[i] == s[i]
          ensures IsItem(s[i]) && r[i].visible ==> s[i].visible || (s[i].owner == owner && s[i].name in names)
        {
          assert r[i] == SelectAt(m[i], last, owner, m[k].location);
        }
    }
  }

  /**
   * `setBodyByName(name)`: `selectedBodyName` moves to `name` only when such a
   * body exists; every body is visible exactly when it has that name; the only
   * visible items are the current sex's default items of the selected body; and
   * nothing but visibility changes.
   */
  lemma BodySelectionEffect(s: seq<Node>, name: string, sel: string, sex: string)
    ensures var (r, sel') := BodySelection(s, name, sel, sex);
      var mid := BodyShown(ItemsHidden(s), name);
      (sel' == if HasBody(s, name) then name else sel) &&
      (forall i :: 0 <= i < |mid| && IsItem(mid[i]) ==> !mid[i].visible) &&
      OnlyVisibility(s, r) &&
      (forall i :: 0 <= i < |s| && IsBody(s[i]) ==> (r[i].visible <==> s[i].name == name)) &&
      (forall i :: 0 <= i < |s| && !IsBody(s[i]) && !IsItem(s[i]) ==> r[i] == s[i]) &&
      (forall i :: 0 <= i < |s| && IsItem(r[i]) && r[i].visible ==> r[i].owner == sel' && r[i].name in DefaultItems(sex))
  {
    var (r, sel') := BodySelection(s, name, sel, sex);
    var mid := BodyShown(ItemsHidden(s), name);
    ItemsSelectedScoped(mid, DefaultItems(sex), sel');
    assert forall i :: 0 <= i < |s| ==> SameTags(mid[i], s[i]);
  }

  /** Selecting items one after the other keeps at most one visible item per location. */
  lemma {:induction false} ItemsSelectedKeeps(s: seq<Node>, names: seq<string>, owner: string)
    requires ConsistentLocations(s) && OnePerLocation(s)
    ensures var r := ItemsSelected(s, names, owner); OnlyVisibility(s, r) && ConsistentLocations(r) && OnePerLocation(r)
  {
    if names != [] {
      var pre := names[..|names| - 1];
      ItemsSelectedKeeps(s, pre, owner);
      var m := ItemsSelected(s, pre, owner);
      ItemSelectedKeepsOnePerLocation(m, names[|names| - 1], owner);
      ItemSelectedEffect(m, names[|names| - 1], owner);
      var r := ItemsSelected(s, names, owner);
      assert OnlyVisibility(s, r) by {
        assert forall i :: 0 <= i < |s| ==> SameTags(r[i], m[i]) && SameTags(m[i], s[i]);
      }
      ConsistentUnderVisibility(s, r);
    }
  }

  /** Selecting a body keeps at most one visible item per location. */
  lemma BodySelectionKeeps(s: seq<Node>, name: string, sel: string, sex: string)
    requires ConsistentLocations(s)
    ensures var r := BodySelection(s, name, sel, sex).0; OnlyVisibility(s, r) && ConsistentLocations(r) && OnePerLocation(r)
  {
    var (r, sel') := BodySelection(s, name, sel, sex);
    var mid := BodyShown(ItemsHidden(s), name);
    assert OnlyVisibility(s, mid) by {
      assert forall i :: 0 <= i < |s| ==> SameTags(mid[i], s[i]);
    }
    ConsistentUnderVisibility(s, mid);
    ItemsSelectedKeeps(mid, DefaultItems(sex), sel');
    assert forall i :: 0 <= i < |s| ==> SameTags(r[i], mid[i]) && SameTags(mid[i], s[i]);
    ConsistentUnderVisibility(s, r);
  }

  /** Body names are unique in the scene. */
  ghost predicate UniqueBodyNames(s: seq<Node>)
  {
    forall i, j :: 0 <= i < |s| && 0 <= j < |s| && IsBody(s[i]) && IsBody(s[j]) && s[i].name == s[j].name ==> i == j
  }

  /** With unique body names, at most one body is visible after a body selection. */
  lemma BodySelectionExclusive(s: seq<Node>, name: string, sel: string, sex: string)
    requires UniqueBodyNames(s)
    ensures var r := BodySelection(s, name, sel, sex).0;
      forall i, j :: 0 <= i < |r| && 0 <= j < |r| && IsBody(r[i]) && IsBody(r[j]) && r[i].visible && r[j].visible ==> i == j
  {
    BodySelectionEffect(s, name, sel, sex);
  }

  lemma ConsistentUnderVisibility(s: seq<Node>, r: seq<Node>)
    requires ConsistentLocations(s) && OnlyVisibility(s, r)
    ensures ConsistentLocations(r)
  {
    forall i, j | 0 <= i < |r| && 0 <= j < |r| && IsItem(r[i]) && IsItem(r[j]) && r[i].name == r[j].name
      ensures r[i].location == r[j].location
    {
      assert SameTags(r[i], s[i]) && SameTags(r[j], s[j]);
    }
  }

  /** An item selection leaves visible whatever is visible away from the selected item's location. */
  lemma ItemSelectedKeepsVisible(s: seq<Node>, name: string, owner: string, i: nat)
    requires i < |s| && s[i].visible
    requires IsItem(s[i]) ==> forall k :: 0 <= k < |s| && Owned(s[k], name, owner) ==> s[k].location != s[i].location
    ensures ItemSelected(s, name, owner)[i].visible
  {
  }

  /** An item selection makes the owned item with that name visible. */
  lemma ItemSelectedShows(s: seq<Node>, name: string, owner: string, i: nat)
    requires i < |s| && Owned(s[i], name, owner)
    ensures ItemSelected(s, name, owner)[i].visible
    ensures OnlyVisibility(s, ItemSelected(s, name, owner))
  {
  }

  /** Selecting an upper item and then a lower item of one body, on a scene showing a body, completes the selection. */
  lemma ShirtThenPantsComplete(s: seq<Node>, shirt: string, pants: string, owner: string, b: nat, u: nat, l: nat)
    requires ConsistentLocations(s)
    requires b < |s| && IsBody(s[b]) && s[b].visible
    requires u < |s| && Owned(s[u], shirt, owner) && s[u].location == UpperLocation
    requires l < |s| && Owned(s[l], pants, owner) && s[l].location == LowerLocation
    ensures Complete(ItemSelected(ItemSelected(s, shirt, owner), pants, owner))
  {
    var m := ItemSelected(s, shirt, owner);
    ItemSelectedShows(s, shirt, owner, u);
    ItemSelectedKeepsVisible(s, shirt, owner, b);
    ConsistentUnderVisibility(s, m);
    assert m[l].name == pants && m[l].location == LowerLocation && m[u].location == UpperLocation;
    var r := ItemSelected(m, pants, owner);
    ItemSelectedShows(m, pants, owner, l);
    ItemSelectedKeepsVisible(m, pants, owner, u);
    ItemSelectedKeepsVisible(m, pants, owner, b);
    assert VisibleItemAt(r[u], UpperLocation) && VisibleItemAt(r[l], LowerLocation) && IsBody(r[b]);
  }

  /**
   * When the scene holds the body `name` and, owned by it, the sex's default
   * shirt at "upper" and default pants at "lower", selecting that body makes
   * the selection complete.
   */
  lemma BodySelectionDressed(s: seq<Node>, name: string, sel: string, sex: string, b: nat, u: nat, l: nat)
    requires sex == MaleSex || sex == FemaleSex
    requires ConsistentLocations(s)
    requires b < |s| && IsBody(s[b]) && s[b].name == name
    requires u < |s| && Owned(s[u], DefaultItems(sex)[0], name) && s[u].location == UpperLocation
    requires l < |s| && Owned(s[l], DefaultItems(sex)[1], name) && s[l].location == LowerLocation
    ensures Complete(BodySelection(s, name, sel, sex).0)
  {
    var names := DefaultItems(sex);
    assert HasBody(s, name);
    var mid := BodyShown(ItemsHidden(s), name);
    assert OnlyVisibility(s, mid) by {
      assert forall i :: 0 <= i < |s| ==> SameTags(mid[i], s[i]);
    }
    ConsistentUnderVisibility(s, mid);
    assert names[..1][..0] == [] && names[..1] == [names[0]] && names[..2] == names && |names| == 2;
    assert ItemsSelected(mid, names[..1], name) == ItemSelected(mid, names[0], name);
    assert ItemsSelected(mid, names, name) == ItemSelected(ItemSelected(mid, names[0], name), names[1], name);
    assert BodySelection(s, name, sel, sex).0 == ItemsSelected(mid, names, name);
    ShirtThenPantsComplete(mid, names[0], names[1], name, b, u, l);
  }

  // ----- publishInvData -----

  lemma {:induction false} VisibleInvDataAppend(s: seq<Node>, t: seq<Node>)
    ensures VisibleInvData(s + t) == VisibleInvData(s) + VisibleInvData(t)
  {
    if t == [] {
      assert s + t == s;
    } else {
      assert (s + t)[..|s + t| - 1] == s + t[..|t| - 1];
      VisibleInvDataAppend(s, t[..|t| - 1]);
    }
  }

  /** The published list holds exactly the `inv_data` of the visible body and item nodes. */
  lemma {:induction false} VisibleInvDataMember(s: seq<Node>, d: InvData)
    ensures d in VisibleInvData(s) <==> exists i :: 0 <= i < |s| && Published(s[i]) && s[i].invData == d
  {
    if s != [] {
      var pre := s[..|s| - 1];
      VisibleInvDataMember(pre, d);
      assert forall i :: 0 <= i < |pre| ==> pre[i] == s[i];
    }
  }

  /** Composed nodes are hidden, so composition publishes nothing new. */
  lemma ComposedPublishesNothing(s: seq<Node>, ls: seq<Loaded>)
    ensures VisibleInvData(s + Composed(ls).0) == VisibleInvData(s)
  {
    var nodes := Composed(ls).0;
    VisibleInvDataAppend(s, nodes);
    ComposedEffect(ls);
    HiddenPublishesNothing(nodes);
  }

  lemma {:induction false} HiddenPublishesNothing(s: seq<Node>)
    requires forall i :: 0 <= i < |s| ==> !s[i].visible
    ensures VisibleInvData(s) == []
  {
    if s != [] {
      HiddenPublishesNothing(s[..|s| - 1]);
    }
  }

  // ----- addToScene -----

  function IsItemAsset(): Loaded -> bool { (l: Loaded) => l.category == ItemCategoryName }

  /**
   * A completed item visit adds one node per item entry, in bundle order, with
   * the entry's name, location and `inv_data`; it completes exactly when no
   * item entry's bone copy throws.
   */
  lemma {:induction false} ItemNodesEffect(ls: seq<Loaded>, owner: string, skeleton: Option<seq<Bone>>)
    ensures var (nodes, ok) := ItemNodes(ls, owner, skeleton);
      (ok <==> forall i :: 0 <= i < |ls| && ls[i].category == ItemCategoryName ==> RetargetedParts(ls[i].model.parts, skeleton).Some?) &&
      (ok ==> var items := Filter(ls, IsItemAsset());
        |nodes| == |items| &&
        forall j :: 0 <= j < |nodes| ==>
          nodes[j].name == items[j].name && nodes[j].location == items[j].location && nodes[j].invData == items[j].invData)
  {
    if ls != [] {
      var pre := ls[..|ls| - 1];
      ItemNodesEffect(pre, owner, skeleton);
      assert forall i :: 0 <= i < |pre| ==> pre[i] == ls[i];
      var (nodes, ok) := ItemNodes(pre, owner, skeleton);
      if !ok {
        ItemNodesStopped(ls, owner, skeleton, |pre|);
      }
    }
  }

  /**
   * `addToScene` adds nothing when the bundle has no body entry, and nothing
   * when the first body entry has no animation; otherwise it adds that body,
   * hidden, followed by hidden items tagged with the body's name.
   */
  lemma ComposedEffect(ls: seq<Loaded>)
    ensures var (nodes, outcome) := Composed(ls);
      (outcome == NoBody <==> forall i :: 0 <= i < |ls| ==> ls[i].category != BodyCategoryName) &&
      (outcome == NoBody || outcome == NoAnimation ==> nodes == []) &&
      (forall i :: 0 <= i < |nodes| ==> !nodes[i].visible) &&
      (outcome == Added || outcome == RetargetFailed ==>
        exists k :: 0 <= k < |ls| && ls[k].category == BodyCategoryName && ls[k].model.animations > 0 &&
          (forall j :: 0 <= j < k ==> ls[j].category != BodyCategoryName) &&
          nodes[0] == BodyNodeOf(ls[k]) &&
          forall i :: 1 <= i < |nodes| ==> IsItem(nodes[i]) && nodes[i].owner == ls[k].name)
  {
    var k := FirstIndex(ls, IsBodyAsset());
    if k < |ls| && ls[k].model.animations > 0 {
      var items := ItemNodes(ls, ls[k].name, BodySkeleton(ls[k].model.parts)).0;
      assert forall i :: 0 <= i < |items| ==> items[i] in items;
    }
  }

  /** Composition keeps at most one visible item per location. */
  lemma ComposedKeepsOnePerLocation(s: seq<Node>, ls: seq<Loaded>)
    requires OnePerLocation(s)
    ensures OnePerLocation(s + Composed(ls).0)
  {
    ComposedEffect(ls);
  }

  /** Retargeting a clone succeeds exactly when no skinned part has more bones than the body skeleton. */
  lemma {:induction false} RetargetedPartsSucceeds(ps: seq<Part>, body: Option<seq<Bone>>)
    ensures RetargetedParts(ps, body).Some? <==> forall i :: 0 <= i < |ps| ==> !RetargetFails(ps[i], body)
    ensures RetargetedParts(ps, body).Some? ==> |RetargetedParts(ps, body).value| == |ps|
  {
    if ps != [] {
      var pre := ps[..|ps| - 1];
      RetargetedPartsSucceeds(pre, body);
      assert forall i :: 0 <= i < |pre| ==> pre[i] == ps[i];
    }
  }

  /**
   * After retargeting, bone `j` of every skinned part has the position,
   * rotation and scale of body bone `j`, and keeps its own name; other parts
   * are unchanged.
   */
  lemma {:induction false} RetargetedBonesMatchBody(ps: seq<Part>, body: Option<seq<Bone>>, i: nat)
    requires RetargetedParts(ps, body).Some? && i < |ps|
    ensures |RetargetedParts(ps, body).value| == |ps|
    ensures var p, q := ps[i], RetargetedParts(ps, body).value[i];
      (!IsSkinned(p) ==> q == p) &&
      (IsSkinned(p) ==>
        q.Mesh? && q.material == p.material && q.skeleton.Some? && |q.skeleton.value| == |p.skeleton.value| &&
        |p.skeleton.value| <= |Bones(body)| &&
        forall j :: 0 <= j < |p.skeleton.value| ==>
          var bone, src := q.skeleton.value[j], Bones(body)[j];
          bone.name == p.skeleton.value[j].name &&
          bone.position == src.position && bone.rotation == src.rotation && bone.scale == src.scale)
  {
    RetargetedPartsSucceeds(ps, body);
    var pre := ps[..|ps| - 1];
    RetargetedPartsSucceeds(pre, body);
    if i < |pre| {
      RetargetedBonesMatchBody(pre, body, i);
      assert pre[i] == ps[i];
    }
  }

  // ----- any sequence of selection commands -----

  /** The selection commands a user can issue once the scene is built. */
  datatype Command = SelectBody(body: string) | SelectItem(item: string) | RemoveItem(item: string)
                   | RemoveLocation(location: string) | RemoveAll | SelectSex(sex: string)

  /** The scene with the module variables `selectedBodyName` and `curSex`. */
  datatype Selection = Selection(scene: seq<Node>, sel: string, sex: string)

  /** The state after one command. */
  function Apply(st: Selection, c: Command): Selection
  {
    match c
    case SelectBody(n) =>
      var (r, sel') := BodySelection(st.scene, n, st.sel, st.sex);
      Selection(r, sel', st.sex)
    case SelectItem(n) => st.(scene := ItemSelected(st.scene, n, st.sel))
    case RemoveItem(n) => st.(scene := OwnedHidden(st.scene, n, st.sel))
    case RemoveLocation(loc) => st.(scene := LocationHidden(st.scene, loc))
    case RemoveAll => st.(scene := ItemsHidden(st.scene))
    case SelectSex(x) =>
      var (r, sel', sex') := SexSelection(st.scene, st.sel, st.sex, x);
      Selection(r, sel', sex')
  }

  function Run(st: Selection, cs: seq<Command>): Selection
  {
    if cs == [] then st else Apply(Run(st, cs[..|cs| - 1]), cs[|cs| - 1])
  }

  lemma ApplyKeeps(st: Selection, c: Command)
    requires ConsistentLocations(st.scene) && OnePerLocation(st.scene)
    ensures var r := Apply(st, c).scene; OnlyVisibility(st.scene, r) && ConsistentLocations(r) && OnePerLocation(r)
  {
    var s, sel := st.scene, st.sel;
    var r := Apply(st, c).scene;
    match c
    case SelectBody(n) =>
      BodySelectionKeeps(s, n, sel, st.sex);
    case SelectItem(n) =>
      ItemSelectedEffect(s, n, sel);
      ItemSelectedKeepsOnePerLocation(s, n, sel);
    case RemoveItem(n) =>
      OwnedHiddenEffect(s, n, sel);
      HidingKeepsOnePerLocation(s, r);
    case RemoveLocation(loc) =>
      LocationHiddenEffect(s, loc);
      HidingKeepsOnePerLocation(s, r);
    case RemoveAll =>
      HidingKeepsOnePerLocation(s, r);
    case SelectSex(x) =>
      if x != st.sex && DefaultBody(x).Some? {
        BodySelectionKeeps(s, DefaultBody(x).value, sel, x);
      }
  }

  /** Whatever commands are issued, tags never change and each location shows at most one item. */
  lemma {:induction false} RunKeepsOnePerLocation(st: Selection, cs: seq<Command>)
    requires ConsistentLocations(st.scene) && OnePerLocation(st.scene)
    ensures var r := Run(st, cs).scene; OnlyVisibility(st.scene, r) && ConsistentLocations(r) && OnePerLocation(r)
  {
    if cs != [] {
      RunKeepsOnePerLocation(st, cs[..|cs| - 1]);
      var st' := Run(st, cs[..|cs| - 1]);
      ApplyKeeps(st', cs[|cs| - 1]);
      var s, s', r := st.scene, st'.scene, Run(st, cs).scene;
      assert forall i :: 0 <= i < |s| ==> SameTags(s'[i], s[i]) && SameTags(r[i], s'[i]);
    }
  }

  // ----- scenes built from the catalog -----

  /** The configuration shape: no body is tagged with the item category. */
  predicate BodiesNotItems(config: Config)
  {
    forall i :: 0 <= i < |config.bodies| ==> config.bodies[i].category != ItemCategoryName
  }

  /** `name` is in the catalog, and the first catalog item with that name sits at `loc`. */
  predicate LocatedIn(items: seq<Item>, name: string, loc: string)
  {
    FindItem(items, name).Some? && FindItem(items, name).value.location == loc
  }

  /** Every item entry of a loaded bundle carries its catalog location. */
  predicate EntriesLocated(items: seq<Item>, ls: seq<Loaded>)
  {
    forall i :: 0 <= i < |ls| && ls[i].category == ItemCategoryName ==> LocatedIn(items, ls[i].name, ls[i].location)
  }

  /** Every item node of a scene carries its catalog location. */
  predicate SceneLocated(items: seq<Item>, s: seq<Node>)
  {
    forall i :: 0 <= i < |s| && IsItem(s[i]) ==> LocatedIn(items, s[i].name, s[i].location)
  }

  /** `Promise.all` resolves the requests in order, each to its own tagged result. */
  predicate ResolvedFrom(reqs: seq<Request>, ls: seq<Loaded>)
  {
    |ls| == |reqs| && forall i :: 0 <= i < |ls| ==> ls[i] == Resolve(reqs[i], ls[i].model)
  }

  /** `ls` is what `loadBodyandItems(config, name)` resolves to. */
  predicate LoadedFor(config: Config, name: string, ls: seq<Loaded>)
  {
    PlanOf(config, name).Planned? && ResolvedFrom(PlanOf(config, name).requests, ls)
  }

  /** A resolved bundle tags each item with the location of the first catalog item of that name. */
  lemma LoadedLocated(config: Config, name: string, ls: seq<Loaded>)
    requires BodiesNotItems(config) && LoadedFor(config, name, ls)
    ensures EntriesLocated(config.items, ls)
  {
    PlanOfEffect(config, name);
    var reqs := PlanOf(config, name).requests;
    var k := FirstIndex(config.bodies, BodyNamed(name));
    if k < |config.bodies| {
      var b := config.bodies[k];
      BodyPlanEffect(config.items, b);
      forall i | 0 <= i < |ls| && ls[i].category == ItemCategoryName
        ensures LocatedIn(config.items, ls[i].name, ls[i].location)
      {
        assert i != 0;
        var n := b.items[i - 1];
        assert reqs[i] == ItemRequest(FindItem(config.items, n).value);
        assert FindItem(config.items, FindItem(config.items, n).value.name) == FindItem(config.items, n);
      }
    }
  }

  /** Two names with the same first catalog item sit at the same location. */
  lemma SceneLocatedConsistent(items: seq<Item>, s: seq<Node>)
    requires SceneLocated(items, s)
    ensures ConsistentLocations(s)
  {
  }

  lemma {:induction false} ItemNodesLocated(items: seq<Item>, ls: seq<Loaded>, owner: string, skeleton: Option<seq<Bone>>)
    requires EntriesLocated(items, ls)
    ensures SceneLocated(items, ItemNodes(ls, owner, skeleton).0)
  {
    if ls != [] {
      var pre := ls[..|ls| - 1];
      assert EntriesLocated(items, pre) by {
        assert forall i :: 0 <= i < |pre| ==> pre[i] == ls[i];
      }
      ItemNodesLocated(items, pre, owner, skeleton);
    }
  }

  /** `addToScene` appends item nodes that carry their catalog locations. */
  lemma ComposedLocated(items: seq<Item>, s: seq<Node>, ls: seq<Loaded>)
    requires SceneLocated(items, s) && EntriesLocated(items, ls)
    ensures SceneLocated(items, s + Composed(ls).0)
  {
    var k := FirstIndex(ls, IsBodyAsset());
    if k < |ls| && ls[k].model.animations > 0 {
      ItemNodesLocated(items, ls, ls[k].name, BodySkeleton(ls[k].model.parts));
    }
  }

  /** What happens to the selection state: a background bundle is composed, or the user issues a command. */
  datatype Event = Composes(body: string, bundle: seq<Loaded>) | Issues(command: Command)

  function Step(st: Selection, e: Event): Selection
  {
    match e
    case Composes(_, ls) => st.(scene := st.scene + Composed(ls).0)
    case Issues(c) => Apply(st, c)
  }

  function Replay(st: Selection, es: seq<Event>): Selection
  {
    if es == [] then st else Step(Replay(st, es[..|es| - 1]), es[|es| - 1])
  }

  /** Every composed bundle is one `loadBodyandItems` resolved to for the body it names. */
  predicate BundlesLoaded(config: Config, es: seq<Event>)
  {
    forall i :: 0 <= i < |es| && es[i].Composes? ==> LoadedFor(config, es[i].body, es[i].bundle)
  }

  lemma StepKeeps(config: Config, st: Selection, e: Event)
    requires BodiesNotItems(config)
    requires e.Composes? ==> LoadedFor(config, e.body, e.bundle)
    requires SceneLocated(config.items, st.scene) && OnePerLocation(st.scene)
    ensures SceneLocated(config.items, Step(st, e).scene) && OnePerLocation(Step(st, e).scene)
  {
    match e
    case Composes(name, ls) =>
      LoadedLocated(config, name, ls);
      ComposedLocated(config.items, st.scene, ls);
      ComposedKeepsOnePerLocation(st.scene, ls);
    case Issues(c) =>
      SceneLocatedConsistent(config.items, st.scene);
      ApplyKeeps(st, c);
      var r := Apply(st, c).scene;
      assert forall i :: 0 <= i < |r| ==> SameTags(r[i], st.scene[i]);
  }

  /**
   * However background bundles and user commands interleave, starting from the
   * fixtures of `initWebGL` every item carries its catalog location and each
   * location shows at most one item.
   */
  lemma {:induction false} ReplayKeepsOnePerLocation(config: Config, st: Selection, es: seq<Event>)
    requires BodiesNotItems(config) && BundlesLoaded(config, es)
    requires st.scene == Fixtures
    ensures var r := Replay(st, es).scene; SceneLocated(config.items, r) && ConsistentLocations(r) && OnePerLocation(r)
    decreases |es|
  {
    if es == [] {
      assert SceneLocated(config.items, Fixtures);
      assert OnePerLocation(Fixtures);
    } else {
      var pre := es[..|es| - 1];
      assert BundlesLoaded(config, pre) by {
        assert forall i :: 0 <= i < |pre| ==> pre[i] == es[i];
      }
      ReplayKeepsOnePerLocation(config, st, pre);
      StepKeeps(config, Replay(st, pre), es[|es| - 1]);
    }
    SceneLocatedConsistent(config.items, Replay(st, es).scene);
  }
}
