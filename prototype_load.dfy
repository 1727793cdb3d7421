/**
 * Load planning and load bookkeeping of js/prototype.js: finding an item in
 * the catalog, turning a body's dependency list into load requests, and the
 * list of bodies still loading in the background.
 */
module PrototypeLoad {
  import opened Common
  import opened Catalog

  /** One call of `loadAsync`: which loader fetches which file, and the tags its result carries. */
  datatype Request = Request(loader: Loader, url: string, name: string, category: string, location: string, invData: InvData)

  /** A resolved request: the tags of the request and the decoded model. */
  datatype Loaded = Loaded(name: string, category: string, location: string, model: Model, invData: InvData)

  /** The outcome of planning a body: its requests, or the item name whose lookup threw. */
  datatype Plan = Planned(requests: seq<Request>) | UnknownItem(name: string)

  function BodyRequest(b: Body): Request
  {
    Request(GltfLoader, b.filename, b.name, b.category, "", b.invData)
  }

  function ItemRequest(it: Item): Request
  {
    Request(GltfLoader, it.filename, it.name, it.category, it.location, it.invData)
  }

  /** What a request resolves to once its file has been decoded into `m`. */
  function Resolve(r: Request, m: Model): (l: Loaded)
    ensures l.name == r.name && l.category == r.category && l.location == r.location && l.invData == r.invData
  {
    Loaded(r.name, r.category, r.location, m, r.invData)
  }

  function MissingFrom(items: seq<Item>): string -> bool { (n: string) => FindItem(items, n).None? }

  /**
   * The requests `loadBodyandItems` issues: for the first body with that name,
   * one for the body and then one per entry of its item list, in list order;
   * none when no body matches. A listed item missing from the catalog makes the
   * lookup throw, which rejects the whole bundle.
   */
  function PlanOf(config: Config, name: string): Plan
  {
    var k := FirstIndex(config.bodies, BodyNamed(name));
    if k == |config.bodies| then Planned([]) else BodyPlan(config.items, config.bodies[k])
  }

  /** The requests for a matched body: the body, then its items, unless one of them is missing. */
  function BodyPlan(items: seq<Item>, b: Body): Plan
  {
    var m := FirstIndex(b.items, MissingFrom(items));
    if m < |b.items| then UnknownItem(b.items[m])
    else Planned([BodyRequest(b)] + ItemRequests(items, b.items))
  }

  /** One request per listed item, each for the first catalog item with that name. */
  function ItemRequests(items: seq<Item>, names: seq<string>): seq<Request>
    requires forall j :: 0 <= j < |names| ==> FindItem(items, names[j]).Some?
  {
    if names == [] then []
    else ItemRequests(items, names[..|names| - 1]) + [ItemRequest(FindItem(items, names[|names| - 1]).value)]
  }

  lemma {:induction false} ItemRequestsEffect(items: seq<Item>, names: seq<string>)
    requires forall j :: 0 <= j < |names| ==> FindItem(items, names[j]).Some?
    ensures |ItemRequests(items, names)| == |names|
    ensures forall j :: 0 <= j < |names| ==> ItemRequests(items, names)[j] == ItemRequest(FindItem(items, names[j]).value)
  {
    if names != [] {
      var pre := names[..|names| - 1];
      ItemRequestsEffect(items, pre);
      assert forall j :: 0 <= j < |pre| ==> pre[j] == names[j];
    }
  }

  /** The requests for a matched body, request by request, and the item that rejects them. */
  lemma BodyPlanEffect(items: seq<Item>, b: Body)
    ensures var plan, m := BodyPlan(items, b), FirstIndex(b.items, MissingFrom(items));
      m < |b.items| ==> plan == UnknownItem(b.items[m]) && FindItem(items, b.items[m]).None? &&
                        forall j :: 0 <= j < m ==> FindItem(items, b.items[j]).Some?
    ensures var plan, m := BodyPlan(items, b), FirstIndex(b.items, MissingFrom(items));
      m == |b.items| ==>
        plan.Planned? && |plan.requests| == 1 + |b.items| && plan.requests[0] == BodyRequest(b) &&
        forall j :: 0 <= j < |b.items| ==>
          FindItem(items, b.items[j]).Some? && plan.requests[j + 1] == ItemRequest(FindItem(items, b.items[j]).value)
  {
    if FirstIndex(b.items, MissingFrom(items)) == |b.items| {
      ItemRequestsEffect(items, b.items);
    }
  }

  /** What a plan promises: no requests without a matching body, otherwise the first match's requests. */
  lemma PlanOfEffect(config: Config, name: string)
    ensures var k := FirstIndex(config.bodies, BodyNamed(name));
      k == |config.bodies| <==> forall i :: 0 <= i < |config.bodies| ==> config.bodies[i].name != name
    ensures var k := FirstIndex(config.bodies, BodyNamed(name));
      k == |config.bodies| ==> PlanOf(config, name) == Planned([])
    ensures var k := FirstIndex(config.bodies, BodyNamed(name));
      k < |config.bodies| ==> config.bodies[k].name == name && PlanOf(config, name) == BodyPlan(config.items, config.bodies[k])
  {
  }

  /** `loadBodyandItems`: scans the bodies with `every`, then looks up each listed item in turn. */
  method LoadBodyAndItems(config: Config, name: string) returns (plan: Plan)
    ensures plan == PlanOf(config, name)
  {
    var i := 0;
    while i < |config.bodies| && config.bodies[i].name != name
      invariant 0 <= i <= |config.bodies|
      invariant forall j :: 0 <= j < i ==> config.bodies[j].name != name
    {
      i := i + 1;
    }
    assert i == FirstIndex(config.bodies, BodyNamed(name));
    if i == |config.bodies| {
      return Planned([]);
    }
    plan := PlanBody(config, config.bodies[i]);
  }

  /** The `forEach` over the matched body's item list, each looked up with `getItemByName`. */
  method PlanBody(config: Config, b: Body) returns (plan: Plan)
    ensures plan == BodyPlan(config.items, b)
  {
    var loaders := [BodyRequest(b)];
    var missing := false;
    var j := 0;
    while j < |b.items|
      invariant 0 <= j <= |b.items|
      invariant forall t :: 0 <= t < j ==> FindItem(config.items, b.items[t]).Some?
      invariant loaders == [BodyRequest(b)] + ItemRequests(config.items, b.items[..j])
    {
      var item := GetItemByName(config, b.items[j]);
      if item.None? {
        missing := true;
        break;
      }
      assert b.items[..j + 1][..j] == b.items[..j];
      loaders := loaders + [ItemRequest(item.value)];
      j := j + 1;
    }
    FirstIndexAt(b.items, MissingFrom(config.items), j);
    if missing {
      return UnknownItem(b.items[j]);
    }
    assert b.items[..j] == b.items;
    return Planned(loaders);
  }

  /** The names `startApp` puts on its load map: every body but the default one, in catalog order. */
  function OtherBodies(bodies: seq<Body>, defaultName: string): seq<string>
  {
    if bodies == [] then []
    else
      var last := bodies[|bodies| - 1];
      OtherBodies(bodies[..|bodies| - 1], defaultName) + (if last.name != defaultName then [last.name] else [])
  }

  lemma {:induction false} OtherBodiesMember(bodies: seq<Body>, defaultName: string, x: string)
    ensures x in OtherBodies(bodies, defaultName) <==> x != defaultName && exists b :: b in bodies && b.name == x
  {
    if bodies != [] {
      var pre := bodies[..|bodies| - 1];
      OtherBodiesMember(pre, defaultName, x);
      assert bodies == pre + [bodies[|bodies| - 1]];
    }
  }

  function NotNamed(name: string): string -> bool { (e: string) => e != name }

  /** The load map after the body `name` has finished: `loadMap.filter(e => e !== name)`. */
  function Without(pending: seq<string>, name: string): seq<string>
  {
    Filter(pending, NotNamed(name))
  }

  /** The load map after the bodies in `done` have finished, in that order. */
  function Remaining(pending: seq<string>, done: seq<string>): seq<string>
  {
    if done == [] then pending
    else Without(Remaining(pending, done[..|done| - 1]), done[|done| - 1])
  }

  lemma {:induction false} RemainingMember(pending: seq<string>, done: seq<string>, x: string)
    ensures x in Remaining(pending, done) <==> x in pending && x !in done
  {
    if done != [] {
      var pre := done[..|done| - 1];
      RemainingMember(pending, pre, x);
      FilterMember(Remaining(pending, pre), NotNamed(done[|done| - 1]), x);
      assert done == pre + [done[|done| - 1]];
    }
  }

  /** The load map runs empty exactly when every body on it has finished loading. */
  lemma AllLoadedIffEmpty(pending: seq<string>, done: seq<string>)
    ensures Remaining(pending, done) == [] <==> forall x :: x in pending ==> x in done
  {
    if Remaining(pending, done) == [] {
      forall x | x in pending
        ensures x in done
      {
        RemainingMember(pending, done, x);
      }
    } else {
      var x := Remaining(pending, done)[0];
      RemainingMember(pending, done, x);
    }
  }

  /**
   * As written, `startApp` looks at the load map only inside a body's completion
   * callback, so the "fully loaded" signal fires only if some completion leaves
   * the map empty.
   */
  ghost predicate SignalledAsWritten(pending: seq<string>, done: seq<string>)
  {
    exists k :: 0 < k <= |done| && Remaining(pending, done[..k]) == []
  }

  /** Every completion is that of a body the load map was built from. */
  predicate DrawnFrom(pending: seq<string>, done: seq<string>)
  {
    forall i :: 0 <= i < |done| ==> done[i] in pending
  }

  /** Completions drawn from an empty load map: there are none. */
  lemma DrawnFromNothing(pending: seq<string>, done: seq<string>)
    requires DrawnFrom(pending, done)
    ensures pending == [] ==> done == []
  {
    if done != [] {
      assert done[0] in pending;
    }
  }

  /** One more completion signals when the earlier ones did or when it empties the map. */
  lemma SignalledSnoc(pending: seq<string>, done: seq<string>, x: string)
    ensures SignalledAsWritten(pending, done + [x]) <==>
            SignalledAsWritten(pending, done) || Remaining(pending, done + [x]) == []
  {
    var d := done + [x];
    assert d[..|d|] == d;
    if SignalledAsWritten(pending, d) && Remaining(pending, d) != [] {
      var k :| 0 < k <= |d| && Remaining(pending, d[..k]) == [];
      assert d[..k] == done[..k];
    }
    if SignalledAsWritten(pending, done) {
      var k :| 0 < k <= |done| && Remaining(pending, done[..k]) == [];
      assert d[..k] == done[..k];
    }
  }

  /**
   * When the default body is the catalog's only body the load map starts empty,
   * so no background completion can arrive, and the signal never fires although
   * nothing is outstanding.
   */
  lemma LoneBodyNeverSignalled(bodies: seq<Body>, defaultName: string, done: seq<string>)
    requires forall i :: 0 <= i < |bodies| ==> bodies[i].name == defaultName
    requires DrawnFrom(OtherBodies(bodies, defaultName), done)
    ensures OtherBodies(bodies, defaultName) == [] && done == []
    ensures !SignalledAsWritten(OtherBodies(bodies, defaultName), done)
  {
    var names := OtherBodies(bodies, defaultName);
    if names != [] {
      OtherBodiesMember(bodies, defaultName, names[0]);
      assert false;
    }
    DrawnFromNothing(names, done);
  }

  /** With bodies outstanding, the signal fires once every one of them has completed. */
  lemma SignalledOnceAllDone(pending: seq<string>, done: seq<string>)
    requires pending != [] && forall x :: x in pending ==> x in done
    ensures SignalledAsWritten(pending, done)
  {
    AllLoadedIffEmpty(pending, done);
    assert pending[0] in done;
    assert done[..|done|] == done;
  }

  /**
   * A background load whose promise rejects, or whose callback throws before the
   * filter, never removes its body, so the signal never fires.
   */
  lemma FailedLoadNeverSignalled(pending: seq<string>, done: seq<string>, x: string)
    requires x in pending && x !in done
    ensures !SignalledAsWritten(pending, done)
  {
    forall k | 0 < k <= |done|
      ensures Remaining(pending, done[..k]) != []
    {
      assert x !in done[..k] by {
        assert forall y :: y in done[..k] ==> y in done;
      }
      RemainingMember(pending, done[..k], x);
    }
  }

  /**
   * The load map of `startApp` as written: the flag stands for the controls
   * being shown, which only a completion that empties the map does.
   */
  class LoadMapAsWritten {
    var pending: seq<string>
    var fullyLoaded: bool
    ghost var initial: seq<string>
    ghost var done: seq<string>

    ghost predicate Valid()
      reads this
    {
      pending == Remaining(initial, done) && (fullyLoaded <==> SignalledAsWritten(initial, done))
    }

    constructor (bodies: seq<Body>, defaultName: string)
      ensures Valid() && initial == OtherBodies(bodies, defaultName) && done == []
      ensures pending == OtherBodies(bodies, defaultName) && !fullyLoaded
    {
      var names := [];
      var i := 0;
      while i < |bodies|
        invariant 0 <= i <= |bodies|
        invariant names == OtherBodies(bodies[..i], defaultName)
      {
        assert bodies[..i + 1][..i] == bodies[..i];
        if bodies[i].name != defaultName {
          names := names + [bodies[i].name];
        }
        i := i + 1;
      }
      assert bodies[..i] == bodies;
      pending := names;
      fullyLoaded := false;
      initial := names;
      done := [];
    }

    /** The completion callback of one background body, as written. */
    method Loaded(name: string)
      requires Valid()
      modifies this
      ensures Valid() && initial == old(initial) && done == old(done) + [name]
      ensures pending == Without(old(pending), name)
      ensures fullyLoaded <==> old(fullyLoaded) || pending == []
    {
      pending := Without(pending, name);
      fullyLoaded := fullyLoaded || pending == [];
      SignalledSnoc(initial, done, name);
      assert (done + [name])[..|done|] == done;
      done := done + [name];
    }
  }

  /**
   * A body whose load rejected, with every other body already completed: as
   * written the map never runs empty, while counting the rejection as settled
   * empties it.
   */
  lemma SettledLoadsSignal(pending: seq<string>, done: seq<string>, x: string)
    requires x in pending && x !in done
    requires forall y :: y in pending ==> y in done || y == x
    ensures Remaining(pending, done) != []
    ensures Remaining(pending, done + [x]) == []
  {
    RemainingMember(pending, done, x);
    forall y | y in pending
      ensures y in done + [x]
    {
    }
    AllLoadedIffEmpty(pending, done + [x]);
  }

  /**
   * The outstanding-body bookkeeping of `startApp`, corrected: a body leaves
   * the load map once its load settles, fulfilled or rejected, and the "fully
   * loaded" flag equals "the load map is empty" from the start on.
   */
  class LoadTracker {
    var pending: seq<string>
    var fullyLoaded: bool
    ghost var initial: seq<string>
    ghost var settled: seq<string>

    ghost predicate Valid()
      reads this
    {
      pending == Remaining(initial, settled) && (fullyLoaded <==> pending == [])
    }

    constructor (bodies: seq<Body>, defaultName: string)
      ensures Valid() && initial == OtherBodies(bodies, defaultName) && settled == []
      ensures pending == OtherBodies(bodies, defaultName)
      ensures fullyLoaded <==> pending == []
    {
      var names := [];
      var i := 0;
      while i < |bodies|
        invariant 0 <= i <= |bodies|
        invariant names == OtherBodies(bodies[..i], defaultName)
      {
        assert bodies[..i + 1][..i] == bodies[..i];
        if bodies[i].name != defaultName {
          names := names + [bodies[i].name];
        }
        i := i + 1;
      }
      assert bodies[..i] == bodies;
      pending := names;
      fullyLoaded := names == [];
      initial := names;
      settled := [];
    }

    /** One background load has settled, whether its promise fulfilled or rejected. */
    method Settled(name: string) returns (allLoaded: bool)
      requires Valid()
      modifies this
      ensures Valid() && initial == old(initial) && settled == old(settled) + [name]
      ensures pending == Without(old(pending), name)
      ensures fullyLoaded == allLoaded
      ensures allLoaded <==> forall x :: x in old(pending) ==> x == name
      ensures allLoaded <==> forall x :: x in initial ==> x in settled
    {
      pending := Without(pending, name);
      allLoaded := pending == [];
      fullyLoaded := allLoaded;
      assert Without(old(pending), name) == Remaining(old(pending), [name]);
      AllLoadedIffEmpty(old(pending), [name]);
      assert (settled + [name])[..|settled|] == settled;
      settled := settled + [name];
      AllLoadedIffEmpty(initial, settled);
    }
  }
}
