/**
 * What js/orig_prototype.js guarantees: the `preload` flag partitions the
 * catalog into two disjoint tiers, `addToScene2` tags each model it adds
 * and touches the skin map only through skin entries, and each slot of a
 * bundle holds the payload of the last entry for it, so that the three
 * results of a skin fill its bundle in whatever order they arrive.
 */
module OrigPrototypeProperties {
  import opened Common
  import opened Catalog
  import opened OrigPrototype

  // ----- tiers -----

  /** A tier holds exactly the catalog entries whose `preload` says so, for bodies, items and skins alike. */
  lemma TierMembers(c: Config, start: bool)
    ensures forall b :: b in Tier(c, start).bodies <==> b in c.bodies && b.preload == Some(start)
    ensures forall it :: it in Tier(c, start).items <==> it in c.items && it.preload == Some(start)
    ensures forall sk :: sk in Tier(c, start).skins <==> sk in c.skins && sk.preload == Some(start)
  {
    forall b ensures b in Tier(c, start).bodies <==> b in c.bodies && b.preload == Some(start) {
      FilterMember(c.bodies, BodyInTier(start), b);
    }
    forall it ensures it in Tier(c, start).items <==> it in c.items && it.preload == Some(start) {
      FilterMember(c.items, ItemInTier(start), it);
    }
    forall sk ensures sk in Tier(c, start).skins <==> sk in c.skins && sk.preload == Some(start) {
      FilterMember(c.skins, SkinInTier(start), sk);
    }
  }

  /** No entry is loaded in both tiers, and an entry without `preload` is loaded in neither. */
  lemma TiersDisjoint(c: Config)
    ensures forall b :: !(b in Tier(c, true).bodies && b in Tier(c, false).bodies)
    ensures forall it :: !(it in Tier(c, true).items && it in Tier(c, false).items)
    ensures forall sk :: !(sk in Tier(c, true).skins && sk in Tier(c, false).skins)
    ensures forall b :: b in c.bodies && b.preload.None? ==> b !in Tier(c, true).bodies && b !in Tier(c, false).bodies
    ensures forall it :: it in c.items && it.preload.None? ==> it !in Tier(c, true).items && it !in Tier(c, false).items
    ensures forall sk :: sk in c.skins && sk.preload.None? ==> sk !in Tier(c, true).skins && sk !in Tier(c, false).skins
  {
    TierMembers(c, true);
    TierMembers(c, false);
  }

  /** When every catalog entry carries a `preload` flag, the two tiers together load all of them. */
  lemma TiersCover(c: Config)
    requires forall i :: 0 <= i < |c.bodies| ==> c.bodies[i].preload.Some?
    ensures |Tier(c, true).bodies| + |Tier(c, false).bodies| == |c.bodies|
  {
    TiersCoverBodies(c.bodies);
  }

  lemma {:induction false} TiersCoverBodies(bs: seq<Body>)
    requires forall i :: 0 <= i < |bs| ==> bs[i].preload.Some?
    ensures |Filter(bs, BodyInTier(true))| + |Filter(bs, BodyInTier(false))| == |bs|
  {
    if bs != [] {
      var pre := bs[..|bs| - 1];
      assert forall i :: 0 <= i < |pre| ==> pre[i] == bs[i];
      TiersCoverBodies(pre);
      var b := bs[|bs| - 1];
      assert b.preload.Some?;
      assert b.preload == Some(true) || b.preload == Some(false) by {
        if b.preload.value { assert b.preload == Some(true); } else { assert b.preload == Some(false); }
      }
      assert BodyInTier(true)(b) == InTier(b.preload, true);
      assert BodyInTier(false)(b) == InTier(b.preload, false);
    }
  }

  // ----- addToScene2 -----

  /** `ns` holds one node per entry of `ms`, in order, tagged from it and with the given visibility. */
  predicate NodesOf(ns: seq<Node>, ms: seq<Entry>, visible: bool)
  {
    |ns| == |ms| && forall k :: 0 <= k < |ms| ==> ms[k].payload.Gltf? && ns[k] == NodeOf(ms[k], visible)
  }

  /** `r` is `s` followed by the nodes of the entries `ms`. */
  predicate NodesAppended(s: seq<Node>, r: seq<Node>, ms: seq<Entry>, visible: bool)
  {
    |s| <= |r| && r[..|s|] == s && NodesOf(r[|s|..], ms, visible)
  }

  /** Cloning one more model entry extends the appended nodes by its node. */
  lemma NodesAppendedSnoc(s: seq<Node>, r: seq<Node>, ms: seq<Entry>, e: Entry, visible: bool)
    requires NodesAppended(s, r, ms, visible) && e.payload.Gltf?
    ensures NodesAppended(s, r + [NodeOf(e, visible)], ms + [e], visible)
  {
    var r' := r + [NodeOf(e, visible)];
    assert r'[..|s|] == r[..|s|];
    assert r'[|s|..] == r[|s|..] + [NodeOf(e, visible)];
  }

  /**
   * `addToScene2` throws exactly when a body or item entry carries no model;
   * otherwise it appends one tagged node per body or item entry, in order,
   * and the map is what merging the skin entries alone gives: the scene
   * depends only on model entries, the map only on skin entries, and entries
   * of any other category change nothing.
   */
  lemma {:induction false} AddedSplit(s: seq<Node>, m: map<string, Bundle>, es: seq<Entry>, visible: bool)
    ensures Added(s, m, es, visible).2 <==> forall i :: 0 <= i < |es| && IsModelEntry(es[i]) ==> es[i].payload.Gltf?
    ensures Added(s, m, es, visible).2 ==> Added(s, m, es, visible).1 == Merged(m, Filter(es, SkinEntry()))
    ensures Added(s, m, es, visible).2 ==> NodesAppended(s, Added(s, m, es, visible).0, Filter(es, ModelEntry()), visible)
  {
    AddedCompletes(s, m, es, visible);
    AddedMap(s, m, es, visible);
    AddedNodes(s, m, es, visible);
  }

  lemma {:induction false} AddedCompletes(s: seq<Node>, m: map<string, Bundle>, es: seq<Entry>, visible: bool)
    ensures Added(s, m, es, visible).2 <==> forall i :: 0 <= i < |es| && IsModelEntry(es[i]) ==> es[i].payload.Gltf?
  {
    if es != [] {
      var pre := es[..|es| - 1];
      AddedCompletes(s, m, pre, visible);
      assert forall i :: 0 <= i < |pre| ==> pre[i] == es[i];
    }
  }

  lemma {:induction false} AddedMap(s: seq<Node>, m: map<string, Bundle>, es: seq<Entry>, visible: bool)
    ensures Added(s, m, es, visible).2 ==> Added(s, m, es, visible).1 == Merged(m, Filter(es, SkinEntry()))
  {
    if es != [] {
      var pre, e := es[..|es| - 1], es[|es| - 1];
      AddedMap(s, m, pre, visible);
      var ss := Filter(pre, SkinEntry());
      var m' := Added(s, m, pre, visible).1;
      if Added(s, m, es, visible).2 {
        assert Added(s, m, pre, visible).2;
        if IsSkinEntry(e) {
          assert Added(s, m, es, visible).1 == MergeSkinEntry(m', e);
          assert Filter(es, SkinEntry()) == ss + [e];
          assert (ss + [e])[..|ss|] == ss;
          assert Merged(m, ss + [e]) == MergeSkinEntry(Merged(m, ss), e);
        } else {
          assert Added(s, m, es, visible).1 == m';
          assert Filter(es, SkinEntry()) == ss;
        }
      }
    }
  }

  lemma {:induction false} AddedNodes(s: seq<Node>, m: map<string, Bundle>, es: seq<Entry>, visible: bool)
    ensures Added(s, m, es, visible).2 ==> NodesAppended(s, Added(s, m, es, visible).0, Filter(es, ModelEntry()), visible)
  {
    if es != [] {
      var pre, e := es[..|es| - 1], es[|es| - 1];
      AddedNodes(s, m, pre, visible);
      if Added(s, m, es, visible).2 {
        assert Added(s, m, pre, visible).2;
        if IsModelEntry(e) {
          NodesAppendedSnoc(s, Added(s, m, pre, visible).0, Filter(pre, ModelEntry()), e, visible);
        }
      }
    }
  }

  // ----- skinTextureMap -----

  function EntryNamed(n: string): Entry -> bool { (e: Entry) => e.name == n }

  function EntryAt(n: string, loc: string): Entry -> bool { (e: Entry) => e.name == n && e.location == loc }

  /**
   * What slot `loc` of skin `n` holds after merging `xs`: the payload of the
   * last entry for that skin and slot, or else what it held before, a blank
   * placeholder for a skin the map did not have.
   */
  function ExpectedSlot(m: map<string, Bundle>, xs: seq<Entry>, n: string, loc: string): Slot
  {
    match LastIndex(xs, EntryAt(n, loc))
    case Some(k) => Holds(xs[k].payload)
    case None => if n in m then SlotAt(m[n], loc) else Blank
  }

  lemma {:induction false} MergedDomain(m: map<string, Bundle>, xs: seq<Entry>, n: string)
    ensures n in Merged(m, xs) <==> n in m || LastIndex(xs, EntryNamed(n)).Some?
  {
    if xs != [] {
      MergedDomain(m, xs[..|xs| - 1], n);
    }
  }

  lemma {:induction false} MergedSlot(m: map<string, Bundle>, xs: seq<Entry>, n: string, loc: string)
    requires loc == LowerLocation || loc == UpperLocation || loc == HeadLocation
    requires n in m || LastIndex(xs, EntryNamed(n)).Some?
    ensures n in Merged(m, xs) && SlotAt(Merged(m, xs)[n], loc) == ExpectedSlot(m, xs, n, loc)
  {
    MergedDomain(m, xs, n);
    if xs != [] {
      var pre, e := xs[..|xs| - 1], xs[|xs| - 1];
      var mp := Merged(m, pre);
      MergedDomain(m, pre, n);
      if e.name != n {
        MergedSlot(m, pre, n, loc);
      } else if e.location != loc {
        var stm := if n in mp then mp[n] else Bundle(Blank, Blank, Blank, e.invData);
        assert SlotAt(Merged(m, xs)[n], loc) == SlotAt(stm, loc);
        if n in m || LastIndex(pre, EntryNamed(n)).Some? {
          MergedSlot(m, pre, n, loc);
        } else {
          assert LastIndex(pre, EntryAt(n, loc)).None?;
        }
      }
    }
  }

  lemma {:induction false} MergedInvData(m: map<string, Bundle>, xs: seq<Entry>, n: string)
    requires LastIndex(xs, EntryNamed(n)).Some?
    ensures n in Merged(m, xs) && Merged(m, xs)[n].invData == xs[LastIndex(xs, EntryNamed(n)).value].invData
  {
    MergedDomain(m, xs, n);
    if xs != [] && xs[|xs| - 1].name != n {
      MergedInvData(m, xs[..|xs| - 1], n);
    }
  }

  lemma {:induction false} MergedUntouched(m: map<string, Bundle>, xs: seq<Entry>, n: string)
    requires LastIndex(xs, EntryNamed(n)).None? && n in m
    ensures n in Merged(m, xs) && Merged(m, xs)[n] == m[n]
  {
    MergedDomain(m, xs, n);
    if xs != [] {
      MergedUntouched(m, xs[..|xs| - 1], n);
    }
  }

  /**
   * After merging `xs`, a skin is in the map exactly when it was before or
   * some entry names it; each of its slots is `ExpectedSlot`, its `inv_data`
   * that of the last entry naming it; a skin no entry names keeps its bundle.
   */
  lemma MergedEntry(m: map<string, Bundle>, xs: seq<Entry>, n: string)
    ensures n in Merged(m, xs) <==> n in m || exists i :: 0 <= i < |xs| && xs[i].name == n
    ensures LastIndex(xs, EntryNamed(n)).Some? ==>
      Merged(m, xs)[n] == Bundle(ExpectedSlot(m, xs, n, LowerLocation), ExpectedSlot(m, xs, n, UpperLocation),
                                 ExpectedSlot(m, xs, n, HeadLocation), xs[LastIndex(xs, EntryNamed(n)).value].invData)
    ensures LastIndex(xs, EntryNamed(n)).None? && n in m ==> Merged(m, xs)[n] == m[n]
  {
    MergedDomain(m, xs, n);
    assert (exists i :: 0 <= i < |xs| && xs[i].name == n) <==> LastIndex(xs, EntryNamed(n)).Some? by {
      if exists i :: 0 <= i < |xs| && xs[i].name == n {
        var i :| 0 <= i < |xs| && xs[i].name == n;
        assert EntryNamed(n)(xs[i]);
      }
    }
    if LastIndex(xs, EntryNamed(n)).Some? {
      MergedSlot(m, xs, n, LowerLocation);
      MergedSlot(m, xs, n, UpperLocation);
      MergedSlot(m, xs, n, HeadLocation);
      MergedInvData(m, xs, n);
    } else if n in m {
      MergedUntouched(m, xs, n);
    }
  }

  /** Once results for all three slots of a skin have been merged, in any order, every slot holds a texture. */
  lemma AllSlotsLoaded(m: map<string, Bundle>, xs: seq<Entry>, n: string)
    requires exists i :: 0 <= i < |xs| && xs[i].name == n && xs[i].location == LowerLocation
    requires exists i :: 0 <= i < |xs| && xs[i].name == n && xs[i].location == UpperLocation
    requires exists i :: 0 <= i < |xs| && xs[i].name == n && xs[i].location == HeadLocation
    ensures n in Merged(m, xs)
    ensures Merged(m, xs)[n].lower.Holds? && Merged(m, xs)[n].upper.Holds? && Merged(m, xs)[n].head.Holds?
  {
    MergedEntry(m, xs, n);
    var i :| 0 <= i < |xs| && xs[i].name == n && xs[i].location == LowerLocation;
    assert EntryNamed(n)(xs[i]) && EntryAt(n, LowerLocation)(xs[i]);
    var j :| 0 <= j < |xs| && xs[j].name == n && xs[j].location == UpperLocation;
    assert EntryAt(n, UpperLocation)(xs[j]);
    var k :| 0 <= k < |xs| && xs[k].name == n && xs[k].location == HeadLocation;
    assert EntryAt(n, HeadLocation)(xs[k]);
  }

  /**
   * Whatever payloads the loaders hand back, merging the skin entries of a
   * tier's results fills every slot of each of its skins whose category is
   * "skin".
   */
  lemma TierSkinsLoaded(skins: seq<Skin>, bodies: seq<Body>, items: seq<Item>, reqs: seq<Request>,
                        ps: seq<Payload>, m: map<string, Bundle>, i: nat)
    requires Issued(skins, bodies, items, reqs) && |ps| == |reqs|
    requires i < |skins| && skins[i].category == SkinCategory
    ensures var b := Merged(m, Filter(Resolved(reqs, ps), SkinEntry()));
      skins[i].name in b && b[skins[i].name].lower.Holds? && b[skins[i].name].upper.Holds? && b[skins[i].name].head.Holds?
  {
    var data := Resolved(reqs, ps);
    var xs := Filter(data, SkinEntry());
    FilterMember(data, SkinEntry(), data[3 * i]);
    FilterMember(data, SkinEntry(), data[3 * i + 1]);
    FilterMember(data, SkinEntry(), data[3 * i + 2]);
    assert data[3 * i] in xs && data[3 * i + 1] in xs && data[3 * i + 2] in xs;
    AllSlotsLoaded(m, xs, skins[i].name);
  }

  // ----- the placeholder of a new skin -----

  /**
   * As the code has it, the first result for a new skin leaves the other two
   * slots `undefined`, where the placeholder object meant them to be "".
   */
  lemma AsWrittenLeavesUndefined()
    ensures var e := Entry("male_skin_1", SkinCategory, LowerLocation, Image(Texture(0)), "lower.png");
      MergeSkinEntryAsWritten(map[], e)["male_skin_1"].upper == Undefined &&
      MergeSkinEntry(map[], e)["male_skin_1"].upper == Blank
  {
  }

  /** The two readings differ only in the slots no result has reached yet. */
  lemma AsWrittenAgreesOnLoadedSlots(m: map<string, Bundle>, e: Entry, n: string, loc: string)
    requires loc in [LowerLocation, UpperLocation, HeadLocation]
    requires n in MergeSkinEntry(m, e) && SlotAt(MergeSkinEntry(m, e)[n], loc).Holds?
    ensures n in MergeSkinEntryAsWritten(m, e)
    ensures SlotAt(MergeSkinEntryAsWritten(m, e)[n], loc) == SlotAt(MergeSkinEntry(m, e)[n], loc)
  {
  }

  /** A slot as written against the corrected one: the same, or never assigned where the placeholder stands. */
  predicate SlotAgrees(a: Slot, c: Slot)
  {
    a == c || (a == Undefined && c == Blank)
  }

  predicate BundleAgrees(a: Bundle, c: Bundle)
  {
    SlotAgrees(a.lower, c.lower) && SlotAgrees(a.upper, c.upper) && SlotAgrees(a.head, c.head) && a.invData == c.invData
  }

  /** Two skin maps with the same skin names whose bundles agree slot by slot. */
  predicate MapsAgree(a: map<string, Bundle>, c: map<string, Bundle>)
  {
    a.Keys == c.Keys && forall n :: n in a && n in c ==> BundleAgrees(a[n], c[n])
  }

  lemma MergeStepAgrees(a: map<string, Bundle>, c: map<string, Bundle>, e: Entry)
    requires MapsAgree(a, c)
    ensures MapsAgree(MergeSkinEntryAsWritten(a, e), MergeSkinEntry(c, e))
  {
    var a', c' := MergeSkinEntryAsWritten(a, e), MergeSkinEntry(c, e);
    assert a'.Keys == a.Keys + {e.name} && c'.Keys == c.Keys + {e.name};
    forall n | n in a' && n in c'
      ensures BundleAgrees(a'[n], c'[n])
    {
      if n != e.name {
        assert a'[n] == a[n] && c'[n] == c[n];
      }
    }
  }

  /**
   * Merging any skin entries as written gives the same skin names, `inv_data`
   * and loaded textures as the corrected merge; the bundles differ only where a
   * slot no entry has reached is undefined instead of blank.
   */
  lemma {:induction false} MergedAsWrittenAgrees(m: map<string, Bundle>, xs: seq<Entry>)
    ensures MapsAgree(MergedAsWritten(m, xs), Merged(m, xs))
  {
    if xs == [] {
      assert forall n :: n in m ==> BundleAgrees(m[n], m[n]);
    } else {
      MergedAsWrittenAgrees(m, xs[..|xs| - 1]);
      MergeStepAgrees(MergedAsWritten(m, xs[..|xs| - 1]), Merged(m, xs[..|xs| - 1]), xs[|xs| - 1]);
    }
  }

  /** The agreement at one skin name and slot. */
  lemma MergedAsWrittenSlot(m: map<string, Bundle>, xs: seq<Entry>, n: string, loc: string)
    ensures n in MergedAsWritten(m, xs) <==> n in Merged(m, xs)
    ensures n in Merged(m, xs) ==>
      var a, c := MergedAsWritten(m, xs)[n], Merged(m, xs)[n];
      a.invData == c.invData &&
      (SlotAt(c, loc).Holds? ==> SlotAt(a, loc) == SlotAt(c, loc)) &&
      (SlotAt(a, loc) != SlotAt(c, loc) ==> SlotAt(a, loc) == Undefined && SlotAt(c, loc) == Blank)
  {
    MergedAsWrittenAgrees(m, xs);
  }
}
