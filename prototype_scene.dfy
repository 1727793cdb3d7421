/**
 * The scene of js/prototype.js as a flat sequence of top-level nodes, and the
 * functions that say what each selection and composition step does to it.
 * Only top-level objects carry tags (`userData`); a node's descendants are
 * its `parts`. Lights, floor and grid are `Untagged` nodes that no step touches.
 */
module PrototypeScene {
  import opened Common
  import opened PrototypeLoad

  const MaleSex := "male"
  const FemaleSex := "female"
  const BodyCategoryName := "body"
  const ItemCategoryName := "item"
  const LowerLocation := "lower"
  const UpperLocation := "upper"
  const MaleDefaultBody := "male_body_1_head_1"
  const FemaleDefaultBody := "female_body_1_head_1"

  datatype Category = BodyNode | ItemNode | Untagged

  /**
   * A top-level scene object with its tags. Body nodes leave `location` and
   * `owner` empty; an item's `owner` is the `body_name` of the body it was
   * composed with.
   */
  datatype Node = Node(
    category: Category,
    name: string,
    location: string,
    owner: string,
    visible: bool,
    invData: InvData,
    parts: seq<Part>)

  predicate IsBody(n: Node) { n.category == BodyNode }

  predicate IsItem(n: Node) { n.category == ItemNode }

  predicate Owned(n: Node, name: string, owner: string)
  {
    IsItem(n) && n.name == name && n.owner == owner
  }

  function OwnedBy(name: string, owner: string): Node -> bool { (n: Node) => Owned(n, name, owner) }

  /** Two nodes that differ at most in their visibility. */
  predicate SameTags(a: Node, b: Node) { a == b.(visible := a.visible) }

  // ----- removeAllItems -----

  function HideItem(n: Node): Node
  {
    if IsItem(n) then n.(visible := false) else n
  }

  function ItemsHidden(s: seq<Node>): seq<Node>
  {
    seq(|s|, i requires 0 <= i < |s| => HideItem(s[i]))
  }

  // ----- the body traversal of setBodyByName -----

  function ShowBody(n: Node, name: string): Node
  {
    if IsBody(n) then n.(visible := n.name == name) else n
  }

  function BodyShown(s: seq<Node>, name: string): seq<Node>
  {
    seq(|s|, i requires 0 <= i < |s| => ShowBody(s[i], name))
  }

  predicate HasBody(s: seq<Node>, name: string)
  {
    exists i :: 0 <= i < |s| && IsBody(s[i]) && s[i].name == name
  }

  // ----- setItemByName -----

  /** The second traversal of `setItemByName`, for the target's location `loc`. */
  function SelectAt(n: Node, name: string, owner: string, loc: string): Node
  {
    if !IsItem(n) then n
    else if Owned(n, name, owner) then n.(visible := true)
    else if n.location == loc then n.(visible := false)
    else n
  }

  /**
   * `setItemByName(name)` with `owner` as the selected body: the target is the
   * last owned item with that name; without one nothing changes.
   */
  function ItemSelected(s: seq<Node>, name: string, owner: string): seq<Node>
  {
    match LastIndex(s, OwnedBy(name, owner))
    case None => s
    case Some(k) => seq(|s|, i requires 0 <= i < |s| => SelectAt(s[i], name, owner, s[k].location))
  }

  // ----- remItemByName and remItemByLocation -----

  function HideOwned(n: Node, name: string, owner: string): Node
  {
    if Owned(n, name, owner) then n.(visible := false) else n
  }

  function OwnedHidden(s: seq<Node>, name: string, owner: string): seq<Node>
  {
    seq(|s|, i requires 0 <= i < |s| => HideOwned(s[i], name, owner))
  }

  predicate HasOwned(s: seq<Node>, name: string, owner: string)
  {
    exists i :: 0 <= i < |s| && Owned(s[i], name, owner)
  }

  function HideAt(n: Node, loc: string): Node
  {
    if IsItem(n) && n.location == loc then n.(visible := false) else n
  }

  function LocationHidden(s: seq<Node>, loc: string): seq<Node>
  {
    seq(|s|, i requires 0 <= i < |s| => HideAt(s[i], loc))
  }

  predicate HasItemAt(s: seq<Node>, loc: string)
  {
    exists i :: 0 <= i < |s| && IsItem(s[i]) && s[i].location == loc
  }

  // ----- defaultItems and setBodyByName -----

  /** The items `defaultItems` puts on, in the order it selects them. */
  function DefaultItems(sex: string): seq<string>
  {
    if sex == MaleSex then ["male_shirt_1", "male_pants_1"]
    else if sex == FemaleSex then ["female_shirt_1", "female_pants_1"]
    else []
  }

  /** Selecting the items `names` one after the other for the body `owner`. */
  function ItemsSelected(s: seq<Node>, names: seq<string>, owner: string): seq<Node>
  {
    if names == [] then s
    else ItemSelected(ItemsSelected(s, names[..|names| - 1], owner), names[|names| - 1], owner)
  }

  /**
   * `setBodyByName(name)` from the scene `s`, the selected body `sel` and the
   * current sex: the new scene and the new selected body name.
   */
  function BodySelection(s: seq<Node>, name: string, sel: string, sex: string): (seq<Node>, string)
  {
    var sel' := if HasBody(s, name) then name else sel;
    (ItemsSelected(BodyShown(ItemsHidden(s), name), DefaultItems(sex), sel'), sel')
  }

  /** The body `setSex` selects for a sex: that sex's default body, if it has one. */
  function DefaultBody(sex: string): Option<string>
  {
    if sex == MaleSex then Some(MaleDefaultBody)
    else if sex == FemaleSex then Some(FemaleDefaultBody)
    else None
  }

  /** `setSex(sex)` from the scene `s`, the selected body `sel` and the current sex `cur`. */
  function SexSelection(s: seq<Node>, sel: string, cur: string, sex: string): (seq<Node>, string, string)
  {
    if sex == cur then (s, sel, cur)
    else
      match DefaultBody(sex)
      case None => (s, sel, sex)
      case Some(name) =>
        var (r, sel') := BodySelection(s, name, sel, sex);
        (r, sel', sex)
  }

  // ----- checkCompleteness and publishInvData -----

  predicate VisibleItemAt(n: Node, loc: string)
  {
    IsItem(n) && n.visible && n.location == loc
  }

  /** Some body is visible, and some item is visible at "lower" and at "upper". */
  predicate Complete(s: seq<Node>)
  {
    && (exists i :: 0 <= i < |s| && IsBody(s[i]) && s[i].visible)
    && (exists i :: 0 <= i < |s| && VisibleItemAt(s[i], LowerLocation))
    && (exists i :: 0 <= i < |s| && VisibleItemAt(s[i], UpperLocation))
  }

  predicate Published(n: Node)
  {
    (IsBody(n) || IsItem(n)) && n.visible
  }

  /** The `inv_data` of the visible body and item nodes, in scene order. */
  function VisibleInvData(s: seq<Node>): seq<InvData>
  {
    if s == [] then []
    else
      var n := s[|s| - 1];
      VisibleInvData(s[..|s| - 1]) + (if Published(n) then [n.invData] else [])
  }

  // ----- addToScene -----

  datatype Outcome = Added | NoBody | NoAnimation | RetargetFailed

  function IsBodyAsset(): Loaded -> bool { (l: Loaded) => l.category == BodyCategoryName }

  predicate IsSkinned(p: Part) { p.Mesh? && p.skeleton.Some? }

  /** The skeleton `addToScene` retargets onto: that of the last skinned mesh of the body. */
  function BodySkeleton(parts: seq<Part>): Option<seq<Bone>>
  {
    match LastIndex(parts, IsSkinned)
    case None => None
    case Some(k) => parts[k].skeleton
  }

  /** The bones of the body skeleton, none when the body has no skinned mesh. */
  function Bones(skeleton: Option<seq<Bone>>): seq<Bone>
  {
    match skeleton
    case None => []
    case Some(bones) => bones
  }

  /** Each bone takes position, rotation and scale from the body bone with the same index. */
  function PoseFrom(bones: seq<Bone>, body: seq<Bone>): seq<Bone>
    requires |bones| <= |body|
  {
    seq(|bones|, i requires 0 <= i < |bones| =>
      bones[i].(position := body[i].position, rotation := body[i].rotation, scale := body[i].scale))
  }

  /**
   * Whether the bone copy of one part throws: it reads the body bone of every
   * index of a skinned mesh's skeleton, so that skeleton may not have more
   * bones than the body's (which has none when the body has no skinned mesh).
   */
  predicate RetargetFails(p: Part, body: Option<seq<Bone>>)
  {
    IsSkinned(p) && |p.skeleton.value| > |Bones(body)|
  }

  function RetargetedPart(p: Part, body: Option<seq<Bone>>): Part
    requires !RetargetFails(p, body)
  {
    if IsSkinned(p) then Mesh(p.material, Some(PoseFrom(p.skeleton.value, Bones(body)))) else p
  }

  /** The parts of a cloned item after retargeting, or `None` when the copy throws. */
  function RetargetedParts(ps: seq<Part>, body: Option<seq<Bone>>): Option<seq<Part>>
  {
    if ps == [] then Some([])
    else
      match RetargetedParts(ps[..|ps| - 1], body)
      case None => None
      case Some(pre) =>
        var p := ps[|ps| - 1];
        if RetargetFails(p, body) then None else Some(pre + [RetargetedPart(p, body)])
  }

  function BodyNodeOf(l: Loaded): Node
  {
    Node(BodyNode, l.name, "", "", false, l.invData, l.model.parts)
  }

  function ItemNodeOf(l: Loaded, owner: string, parts: seq<Part>): Node
  {
    Node(ItemNode, l.name, l.location, owner, false, l.invData, parts)
  }

  /**
   * The item nodes `addToScene` adds for the entries `ls`, tagged with the
   * owning body's name, and `false` when a retargeting copy threw (the visit
   * stops before that item is added).
   */
  function ItemNodes(ls: seq<Loaded>, owner: string, skeleton: Option<seq<Bone>>): (r: (seq<Node>, bool))
    ensures forall n :: n in r.0 ==> IsItem(n) && !n.visible && n.owner == owner
    ensures |r.0| <= |ls|
  {
    if ls == [] then ([], true)
    else
      var (pre, ok) := ItemNodes(ls[..|ls| - 1], owner, skeleton);
      var l := ls[|ls| - 1];
      if !ok || l.category != ItemCategoryName then (pre, ok)
      else
        match RetargetedParts(l.model.parts, skeleton)
        case None => (pre, false)
        case Some(parts) => (pre + [ItemNodeOf(l, owner, parts)], true)
  }

  /**
   * What `addToScene` appends to the scene for the bundle `ls`, and how it ends:
   * nothing without a body entry or when the body has no animation; otherwise
   * the body followed by its items.
   */
  function Composed(ls: seq<Loaded>): (seq<Node>, Outcome)
  {
    var k := FirstIndex(ls, IsBodyAsset());
    if k == |ls| then ([], NoBody)
    else if ls[k].model.animations == 0 then ([], NoAnimation)
    else
      var (items, ok) := ItemNodes(ls, ls[k].name, BodySkeleton(ls[k].model.parts));
      ([BodyNodeOf(ls[k])] + items, if ok then Added else RetargetFailed)
  }

  lemma {:induction false} RetargetedPartsStopped(ps: seq<Part>, body: Option<seq<Bone>>, k: nat)
    requires k <= |ps|
    requires RetargetedParts(ps[..k], body).None?
    ensures RetargetedParts(ps, body).None?
  {
    if k < |ps| {
      assert ps[..|ps| - 1][..k] == ps[..k];
      RetargetedPartsStopped(ps[..|ps| - 1], body, k);
    } else {
      assert ps[..k] == ps;
    }
  }

  lemma {:induction false} ItemNodesStopped(ls: seq<Loaded>, owner: string, skeleton: Option<seq<Bone>>, k: nat)
    requires k <= |ls|
    requires !ItemNodes(ls[..k], owner, skeleton).1
    ensures ItemNodes(ls, owner, skeleton) == ItemNodes(ls[..k], owner, skeleton)
  {
    if k < |ls| {
      assert ls[..|ls| - 1][..k] == ls[..k];
      ItemNodesStopped(ls[..|ls| - 1], owner, skeleton, k);
    } else {
      assert ls[..k] == ls;
    }
  }
}
