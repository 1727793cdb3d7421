/**
 * Values shared by the three versions of the avatar picker: the opaque
 * payloads a loader hands back, the parts of a loaded model that the
 * engine looks at (meshes, their materials and skeletons), and a few
 * generic scans over sequences that the JavaScript writes as `every`,
 * `forEach` and `traverse` callbacks.
 */
module Common {

  datatype Option<T> = None | Some(value: T)

  /** The opaque provisioning identifier every catalog entry carries (`inv_data`). */
  type InvData = string

  /** An opaque texture handle; the engine only copies it. */
  datatype Texture = Texture(handle: nat)

  /** An opaque position, rotation or scale of a bone; the engine only copies it. */
  datatype Transform = Transform(handle: nat)

  datatype Bone = Bone(name: string, position: Transform, rotation: Transform, scale: Transform)

  /** A mesh material: its slot name, its texture (`map`) and its `userData.inv_data`. */
  datatype Material = Material(name: string, texture: Option<Payload>, invData: Option<InvData>)

  /**
   * A descendant of a loaded model: a plain group, or a mesh with its material;
   * a skinned mesh also has the bones of its skeleton.
   */
  datatype Part = Group | Mesh(material: Material, skeleton: Option<seq<Bone>>)

  /** A decoded GLTF file: the scene's descendants and the number of animation clips. */
  datatype Model = Model(parts: seq<Part>, animations: nat)

  /** What a loader resolves with: a GLTF model or a texture image. */
  datatype Payload = Gltf(model: Model) | Image(texture: Texture)

  datatype Loader = GltfLoader | TextureLoader

  /** The first index whose element satisfies `p`, or `|xs|` when none does (an `every` scan that stops at a match). */
  function FirstIndex<T>(xs: seq<T>, p: T -> bool): (k: nat)
    ensures k <= |xs|
    ensures k < |xs| ==> p(xs[k])
    ensures forall j :: 0 <= j < k ==> !p(xs[j])
  {
    if xs == [] then 0
    else if p(xs[0]) then 0
    else 1 + FirstIndex(xs[1..], p)
  }

  /** `FirstIndex` is the index before which nothing matches and at which, unless past the end, something does. */
  lemma FirstIndexAt<T>(xs: seq<T>, p: T -> bool, j: nat)
    requires j <= |xs| && (j < |xs| ==> p(xs[j]))
    requires forall t :: 0 <= t < j ==> !p(xs[t])
    ensures FirstIndex(xs, p) == j
  {
  }

  /** The last index whose element satisfies `p` (a full traversal that remembers the latest match). */
  function LastIndex<T>(xs: seq<T>, p: T -> bool): (r: Option<nat>)
    ensures r.None? <==> forall j :: 0 <= j < |xs| ==> !p(xs[j])
    ensures r.Some? ==> r.value < |xs| && p(xs[r.value])
    ensures r.Some? ==> forall j :: r.value < j < |xs| ==> !p(xs[j])
  {
    if xs == [] then None
    else if p(xs[|xs| - 1]) then Some(|xs| - 1)
    else LastIndex(xs[..|xs| - 1], p)
  }

  /** `LastIndex` depends only on which elements satisfy `p`. */
  lemma {:induction false} LastIndexSameMatches<T>(xs: seq<T>, ys: seq<T>, p: T -> bool)
    requires |xs| == |ys|
    requires forall i :: 0 <= i < |xs| ==> p(xs[i]) == p(ys[i])
    ensures LastIndex(xs, p) == LastIndex(ys, p)
  {
    if xs != [] {
      LastIndexSameMatches(xs[..|xs| - 1], ys[..|ys| - 1], p);
    }
  }

  /** The elements satisfying `keep`, in order (a `forEach` that pushes the matching entries). */
  function Filter<T>(xs: seq<T>, keep: T -> bool): (r: seq<T>)
    ensures |r| <= |xs|
  {
    if xs == [] then []
    else Filter(xs[..|xs| - 1], keep) + (if keep(xs[|xs| - 1]) then [xs[|xs| - 1]] else [])
  }

  /**
   * Visits `xs` in order, replacing each element by the first component of
   * `step`; when a step reports `false` (the callback threw), the visit stops
   * there and the remaining elements are left as they were.
   */
  function Traverse<T>(xs: seq<T>, step: T -> (T, bool)): (r: (seq<T>, bool))
    ensures |r.0| == |xs|
  {
    if xs == [] then ([], true)
    else
      var (pre, ok) := Traverse(xs[..|xs| - 1], step);
      if ok then
        var (y, ok') := step(xs[|xs| - 1]);
        (pre + [y], ok')
      else (pre + [xs[|xs| - 1]], false)
  }

  lemma {:induction false} FilterMember<T>(xs: seq<T>, keep: T -> bool, x: T)
    ensures x in Filter(xs, keep) <==> x in xs && keep(x)
  {
    if xs != [] {
      FilterMember(xs[..|xs| - 1], keep, x);
      assert xs == xs[..|xs| - 1] + [xs[|xs| - 1]];
    }
  }

  /** Filtering commutes with concatenation, so the kept elements keep their order. */
  lemma {:induction false} FilterAppend<T>(xs: seq<T>, ys: seq<T>, keep: T -> bool)
    ensures Filter(xs + ys, keep) == Filter(xs, keep) + Filter(ys, keep)
  {
    if ys == [] {
      assert xs + ys == xs;
    } else {
      assert (xs + ys)[..|xs + ys| - 1] == xs + ys[..|ys| - 1];
      FilterAppend(xs, ys[..|ys| - 1], keep);
    }
  }

  /** The elements kept by `keep` and those kept by its negation together account for every element. */
  lemma {:induction false} FilterSplit<T>(xs: seq<T>, keep: T -> bool, drop: T -> bool)
    requires forall x :: drop(x) == !keep(x)
    ensures |Filter(xs, keep)| + |Filter(xs, drop)| == |xs|
  {
    if xs != [] {
      FilterSplit(xs[..|xs| - 1], keep, drop);
    }
  }

  /** A traversal that finished visits every element and every step succeeded. */
  lemma {:induction false} TraverseFinished<T>(xs: seq<T>, step: T -> (T, bool), i: nat)
    requires Traverse(xs, step).1
    requires i < |xs|
    ensures Traverse(xs, step).0[i] == step(xs[i]).0 && step(xs[i]).1
  {
    var pre := xs[..|xs| - 1];
    assert Traverse(pre, step).1;
    if i < |xs| - 1 {
      TraverseFinished(pre, step, i);
      assert xs[i] == pre[i];
    }
  }

  /** A traversal finishes exactly when every step succeeds. */
  lemma {:induction false} TraverseSucceeds<T>(xs: seq<T>, step: T -> (T, bool))
    ensures Traverse(xs, step).1 <==> forall i :: 0 <= i < |xs| ==> step(xs[i]).1
  {
    if xs != [] {
      var pre := xs[..|xs| - 1];
      TraverseSucceeds(pre, step);
      assert forall i :: 0 <= i < |pre| ==> pre[i] == xs[i];
    }
  }

  /** A traversal whose every step succeeds and changes nothing returns the sequence unchanged. */
  lemma {:induction false} TraverseIdentity<T>(xs: seq<T>, step: T -> (T, bool))
    requires forall i :: 0 <= i < |xs| ==> step(xs[i]) == (xs[i], true)
    ensures Traverse(xs, step) == (xs, true)
  {
    if xs != [] {
      var pre := xs[..|xs| - 1];
      assert forall i :: 0 <= i < |pre| ==> pre[i] == xs[i];
      TraverseIdentity(pre, step);
      assert pre + [xs[|xs| - 1]] == xs;
    }
  }

  /** Once a prefix of the visit has stopped, the rest of the sequence is left untouched. */
  lemma {:induction false} TraverseStopped<T>(xs: seq<T>, step: T -> (T, bool), k: nat)
    requires k <= |xs|
    requires !Traverse(xs[..k], step).1
    ensures Traverse(xs, step) == (Traverse(xs[..k], step).0 + xs[k..], false)
  {
    if |xs| == k {
      assert xs[..k] == xs && xs[k..] == [];
      var t := Traverse(xs, step);
      assert Traverse(xs[..k], step) == t;
      assert !t.1;
      assert t.0 + xs[k..] == t.0;
      assert t == (t.0, t.1);
    } else {
      var pre := xs[..|xs| - 1];
      assert pre[..k] == xs[..k];
      TraverseStopped(pre, step, k);
      assert Traverse(xs[..k], step).0 + pre[k..] + [xs[|xs| - 1]] == Traverse(xs[..k], step).0 + xs[k..];
    }
  }

  /** The body name the number pickers compose: `{sex}_body_{body}_head_{head}`. */
  function BodyName(sex: string, bodyNumber: string, headNumber: string): string
  {
    sex + "_body_" + bodyNumber + "_head_" + headNumber
  }

  predicate IsUnderscore(c: char) { c == '_' }

  /** In `a + u`, with no underscore in `a` and one at the start of `u`, the first underscore sits at `|a|`. */
  lemma FirstUnderscore(a: string, u: string)
    requires '_' !in a
    requires |u| > 0 && u[0] == '_'
    ensures FirstIndex(a + u, IsUnderscore) == |a|
  {
    assert IsUnderscore((a + u)[|a|]);
    forall j | 0 <= j < |a|
      ensures !IsUnderscore((a + u)[j])
    {
      assert (a + u)[j] == a[j];
      assert a[j] in a;
    }
  }

  /** Splitting off a leading field that holds no underscore, up to a suffix that starts with one, is unambiguous. */
  lemma LeadingField(a: string, u: string, a': string, u': string)
    requires '_' !in a && '_' !in a'
    requires |u| > 0 && u[0] == '_' && |u'| > 0 && u'[0] == '_'
    requires a + u == a' + u'
    ensures a == a' && u == u'
  {
    FirstUnderscore(a, u);
    FirstUnderscore(a', u');
    assert a == (a + u)[..|a|] == (a' + u')[..|a'|] == a';
    assert u == (a + u)[|a|..] == (a' + u')[|a'|..] == u';
  }

  /**
   * Different choices of sex, body number and head number give different
   * body names, as long as sex and body number hold no underscore.
   */
  lemma BodyNameInjective(sex: string, b: string, h: string, sex': string, b': string, h': string)
    requires '_' !in sex && '_' !in b && '_' !in sex' && '_' !in b'
    requires BodyName(sex, b, h) == BodyName(sex', b', h')
    ensures sex == sex' && b == b' && h == h'
  {
    var u := "_body_" + b + "_head_" + h;
    var u' := "_body_" + b' + "_head_" + h';
    assert BodyName(sex, b, h) == sex + u;
    assert BodyName(sex', b', h') == sex' + u';
    LeadingField(sex, u, sex', u');
    assert u == "_body_" + (b + "_head_" + h);
    assert u' == "_body_" + (b' + "_head_" + h');
    var v := b + "_head_" + h;
    var v' := b' + "_head_" + h';
    assert "_body_" + v == "_body_" + v';
    assert v == b + ("_head_" + h) && v' == b' + ("_head_" + h');
    assert v == ("_body_" + v)[6..] == ("_body_" + v')[6..] == v';
    LeadingField(b, "_head_" + h, b', "_head_" + h');
    assert h == ("_head_" + h)[6..] == ("_head_" + h')[6..] == h';
  }
}
