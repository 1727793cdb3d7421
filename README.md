# Avatar picker: a verified model of the selection engine

The repository is a browser avatar picker. A JSON catalog lists bodies, the
clothing items that fit each body and skin texture sets. glTF models and
textures are loaded into a three.js scene. Buttons then choose a body, put on
or take off items, reskin the body, check that the outfit is complete and
publish the `inv_data` paths of whatever is visible. Three variants of the
engine exist. This project models all three:

- `js/prototype.js`. It loads one body together with that body's items. Item
  nodes are tagged with the body that owns them, and every item's bones copy the
  body's pose. Selection is scoped to the selected body. Modules:
  `PrototypeLoad`, `PrototypeScene`, `PrototypeSession` and
  `PrototypeProperties`.
- `js/original.js`. It loads everything up front and assembles skin bundles.
  Each body is added after its items, and an item already in the scene is
  skipped. Item and skin selection is global. Modules: `OriginalLoad`,
  `OriginalScene`, `OriginalSession` and `OriginalProperties`.
- `js/orig_prototype.js`. It splits the catalog into a preload tier and a
  background tier, and merges skin textures one result at a time. Modules:
  `OrigPrototype` and `OrigPrototypeProperties`.
- `Common` and `Catalog` hold the shared value types. These are the catalog
  records, models, parts, bones and materials, with `Option`. They also hold
  the generic sequence scans the source builds from `every`/`forEach`/`filter`:
  `FirstIndex`, `LastIndex`, `Filter` and a `Traverse` that can stop on a
  crash.

How the model is built:

- The scene is a sequence of top-level tagged nodes, and a node's descendants
  are its `parts`. The scene is a field of a `Session` (or `Viewer`) class.
- Every operation that changes the session is a method that reassigns the
  field. Each such method `ensures` the new state equals a specification
  function of the old state.
- The properties the application relies on are lemmas about those functions.
  Examples: one visible item per location, selection effects, idempotence,
  completeness, deduplication, publishing order, and that each load tier
  covers exactly what it should.
- A JavaScript exception that aborts a traversal half-way becomes a `false`
  flag next to the partly updated state. Examples: a catalog lookup that
  throws, a `TypeError` on an `undefined` texture, a missing `gltf.scene`.
- The loaders' promises become a sequence of payloads, given as a parameter
  and paired with the requests in order (`Resolved`).

Where the repository's prose description and the code differ, the model
follows the code:

- `js/original.js:374-419` adds a body's items to the scene before the body.
  A traversal therefore meets the items first, so published paths list items
  before their body.
- `js/prototype.js:487-518` asks for *some* visible body, not for the selected
  one.
- `js/original.js:185-207` selects items across the whole scene. It does not
  scope them to the selected body.
- `js/original.js:139-152` dresses the female default as `female_body_1`.
  `setSex` (`js/original.js:107-114`) only records the new sex and never calls
  a default state.
- In `js/original.js:62-105` an `undefined` selected body matches every object
  whose name is also `undefined`: the scene root and every unnamed object
  below it match at line 72. Every mesh of every body and item is then
  reskinned, fixtures included. The model keeps this: `Option` equality is
  the same as `==` between two `undefined` values, so `OriginalScene.SkinTarget`
  holds for every object when no body is selected.

## Model

| member | source | states |
|---|---|---|
| `Common.FirstIndex` | js/prototype.js:231-237 | the `every` scan stops at the first element that satisfies the test; no earlier element satisfies it; it returns the length when none does |
| `Common.LastIndex` | js/orig_prototype.js:347-365 | the last match wins: the index satisfies the test and no later element does; `None` exactly when nothing matches |
| `Common.FilterMember` | js/prototype.js:675-677 | an element survives `filter` exactly when it was present and passes the test |
| `Common.FilterAppend` | js/orig_prototype.js:176-192 | filtering distributes over concatenation, so per-element filtering inside `forEach` is a filter of the whole list |
| `Common.FilterSplit` | js/orig_prototype.js:176-230 | two complementary filters split a list: their lengths add up to its length |
| `Common.TraverseSucceeds` | js/prototype.js:275-307 | a traversal completes exactly when no step throws |
| `Common.TraverseFinished` | js/original.js:71-101 | after a completed traversal every element is the step's output and no step threw |
| `Common.TraverseIdentity` | js/original.js:117-121 | a traversal whose every step leaves its element unchanged leaves the sequence unchanged |
| `Common.TraverseStopped` | js/original.js:71-101 | after a throw at element k, the elements before k are updated, the rest are untouched, and the flag is false |
| `Common.BodyNameInjective` | js/prototype.js:352-355 | the body name built from sex, body number and head number determines all three, provided sex and body number contain no `_` |
| `Common.LastIndexSameMatches` | js/orig_prototype.js:347-365 | two lists with the same matching positions give the same last match |
| `Catalog.FindItem` | js/prototype.js:173-185 | `None` exactly when no catalog item has the name; otherwise a catalog item with that name |
| `Catalog.FindItemFirst` | js/prototype.js:173-185 | the item found is the catalog entry at the first position holding that name |
| `Catalog.GetItemByName` | js/prototype.js:173-185 | the `every` loop returns the first item with the name, or nothing |
| `PrototypeLoad.Resolve` | js/prototype.js:158-171 | a loaded result carries its request's name, category, location and `inv_data` |
| `PrototypeLoad.PlanOfEffect` | js/prototype.js:187-227 | no requests exactly when no catalog body has the name; otherwise the requests of the first body with that name |
| `PrototypeLoad.BodyPlanEffect` | js/prototype.js:190-220 | an unknown listed item rejects with the first such item, every earlier one having been found; otherwise the body request, then one request per listed item in list order, each from the catalog entry |
| `PrototypeLoad.ItemRequestsEffect` | js/prototype.js:205-219 | one request per listed name, in list order, each for the first catalog item with that name |
| `PrototypeLoad.LoadBodyAndItems` | js/prototype.js:187-227 | the `every` scan and the item loop issue exactly the plan `PlanOf` describes |
| `PrototypeLoad.PlanBody` | js/prototype.js:205-220 | the item loop builds the matched body's plan, stopping at the first item the catalog lacks |
| `PrototypeLoad.OtherBodiesMember` | js/prototype.js:646-651 | the background list holds exactly the catalog body names other than the default |
| `PrototypeLoad.RemainingMember` | js/prototype.js:675-677 | a name is still pending exactly when it was pending and has not finished loading |
| `PrototypeLoad.AllLoadedIffEmpty` | js/prototype.js:675-686 | the pending list is empty exactly when every pending body has loaded |
| `PrototypeLoad.SignalledSnoc` | js/prototype.js:675-686 | as written, one more completion gives the signal exactly when an earlier one did or this one empties the map |
| `PrototypeLoad.LoneBodyNeverSignalled` | js/prototype.js:646-686 | as written: when every catalog body carries the default name the map starts empty, no completion can come from it, and the signal never fires although nothing is pending |
| `PrototypeLoad.SignalledOnceAllDone` | js/prototype.js:675-686 | as written, with bodies pending, the signal fires once every one of them has completed |
| `PrototypeLoad.FailedLoadNeverSignalled` | js/prototype.js:666-690 | as written, a pending body whose completion never reaches the filter keeps the signal from ever firing |
| `PrototypeLoad.LoadMapAsWritten.constructor` | js/prototype.js:646-651 | as written: the map starts as the other bodies' names and the controls start hidden, even when the map is empty |
| `PrototypeLoad.LoadMapAsWritten.Loaded` | js/prototype.js:675-686 | removes the name; the controls are shown once some completion has emptied the map, which is `SignalledAsWritten` over the completions so far |
| `PrototypeLoad.SettledLoadsSignal` | js/prototype.js:666-690 | with one rejected body and every other one completed, the map as written stays non-empty, and counting the rejection as settled empties it |
| `PrototypeLoad.LoadTracker.constructor` | js/prototype.js:646-651 | pending starts as the other bodies' names; the tracker is already fully loaded when that list is empty (the corrected signal) |
| `PrototypeLoad.LoadTracker.Settled` | js/prototype.js:666-690 | corrected: a settled load, fulfilled or rejected, removes its name; "fully loaded" is reported exactly when every previously pending name equals it, that is when every body of the initial map has settled |
| `PrototypeScene.ItemNodes` | js/prototype.js:275-307 | every node added for an item is a hidden item node owned by the body; no more nodes than bundle entries |
| `PrototypeSession.CopyPose` | js/prototype.js:293-297 | copies position, rotation and scale of each body bone onto the item bone with the same index, leaving names and the rest untouched; fails exactly when the item has more bones than the body |
| `PrototypeSession.FindSkeleton` | js/prototype.js:262-267 | the loop finds the body's skeleton as `BodySkeleton` specifies |
| `PrototypeSession.RetargetParts` | js/prototype.js:287-301 | the loop retargets every skinned part as `RetargetedParts` specifies, failing as it does |
| `PrototypeSession.Session.constructor` | js/prototype.js:91-95 | the scene holds the four untagged fixtures; the selected body is "Waiting..", the sex is empty, both numbers are "1" |
| `PrototypeSession.Session.AddToScene` | js/prototype.js:229-310 | appends exactly the nodes `Composed` builds from the bundle and returns its outcome |
| `PrototypeSession.Session.AddItems` | js/prototype.js:275-307 | appends exactly the item nodes `ItemNodes` builds and reports whether the visit completed |
| `PrototypeSession.Session.RemoveAllItems` | js/prototype.js:393-399 | the scene becomes `ItemsHidden` of the old scene |
| `PrototypeSession.Session.SetItemByName` | js/prototype.js:424-461 | the scene becomes `ItemSelected` for the selected body; reports whether an owned item of that name exists |
| `PrototypeSession.Session.RemItemByName` | js/prototype.js:401-422 | hides the selected body's items of that name; reports whether one exists |
| `PrototypeSession.Session.RemItemByLocation` | js/prototype.js:463-484 | hides every item at the location; reports whether one exists |
| `PrototypeSession.Session.DefaultItems` | js/prototype.js:340-350 | selects the sex's default shirt and pants for the selected body |
| `PrototypeSession.Session.SetBodyByName` | js/prototype.js:367-391 | the scene and the selected body change as `BodySelection` specifies; reports whether the body exists |
| `PrototypeSession.Session.SetSex` | js/prototype.js:312-338 | the same sex changes nothing; male or female records the sex and selects that sex's default body; any other sex only records itself; the new state is `SexSelection` of the old |
| `PrototypeSession.Session.SetBodyByNumbers` | js/prototype.js:352-355 | selects the body named from the current sex and numbers |
| `PrototypeSession.Session.SetBodyByBodyNumber` | js/prototype.js:357-360 | records the body number and selects the body named with it |
| `PrototypeSession.Session.SetBodyByHeadNumber` | js/prototype.js:362-365 | records the head number and selects the body named with it |
| `PrototypeSession.Session.CheckCompleteness` | js/prototype.js:487-518 | the answer is `Complete` of the scene: a visible body, a visible lower item and a visible upper item |
| `PrototypeSession.Session.PublishInvData` | js/prototype.js:520-545 | the list it serialises and logs is `VisibleInvData` of the scene |
| `PrototypeProperties.ItemSelectedEffect` | js/prototype.js:424-461 | with no owned item of that name nothing changes. Otherwise: owned items of that name become visible; other items at the last match's location become hidden; everything else is untouched |
| `PrototypeProperties.ItemSelectedIdempotent` | js/prototype.js:424-461 | selecting the same item twice equals selecting it once |
| `PrototypeProperties.ItemSelectedKeepsOnePerLocation` | js/prototype.js:442-456 | selection keeps at most one visible item per location, given consistent locations |
| `PrototypeProperties.OwnedHiddenEffect` | js/prototype.js:401-422 | exactly the owned items of that name lose visibility; none stays visible; removing again changes nothing |
| `PrototypeProperties.LocationHiddenEffect` | js/prototype.js:463-484 | exactly the items at the location lose visibility; none remains visible there |
| `PrototypeProperties.LocationHiddenIncomplete` | js/prototype.js:487-518 | after removing the lower or upper location the outfit is never complete |
| `PrototypeProperties.HidingKeepsOnePerLocation` | js/prototype.js:393-484 | any change that only hides nodes keeps one visible item per location |
| `PrototypeProperties.ItemsSelectedScoped` | js/prototype.js:340-350 | selecting a list of items touches only item nodes; an item can become visible only if the body owns it and it is in the list |
| `PrototypeProperties.ItemsSelectedKeeps` | js/prototype.js:340-350 | selecting a list of items keeps consistent locations and one visible item per location |
| `PrototypeProperties.BodySelectionEffect` | js/prototype.js:367-391 | the body is recorded only if it exists; every item is hidden first; a body is visible exactly when it has the name; untagged nodes are unchanged; visible items belong to the selection and are the sex's defaults |
| `PrototypeProperties.BodySelectionKeeps` | js/prototype.js:367-391 | after selecting a body at most one item is visible per location |
| `PrototypeProperties.BodySelectionExclusive` | js/prototype.js:372-382 | with unique body names at most one body is visible after selection |
| `PrototypeProperties.ConsistentUnderVisibility` | js/prototype.js:442-456 | changing only visibility keeps every name at one location |
| `PrototypeProperties.ItemSelectedKeepsVisible` | js/prototype.js:442-456 | a visible node stays visible unless it is an item sharing a location with the selected item |
| `PrototypeProperties.ItemSelectedShows` | js/prototype.js:448-454 | an owned item of the selected name is visible afterwards |
| `PrototypeProperties.ShirtThenPantsComplete` | js/prototype.js:487-518 | with a visible body, selecting an owned upper item and then an owned lower item yields a complete outfit |
| `PrototypeProperties.BodySelectionDressed` | js/prototype.js:328-350 | selecting a body that owns the sex's default shirt and pants yields a complete outfit |
| `PrototypeProperties.VisibleInvDataAppend` | js/prototype.js:520-545 | publishing a scene split in two is the concatenation of the two halves' lists |
| `PrototypeProperties.VisibleInvDataMember` | js/prototype.js:520-545 | a path is published exactly when some visible tagged node carries it |
| `PrototypeProperties.ComposedPublishesNothing` | js/prototype.js:269-305 | adding a bundle publishes nothing new (all its nodes start hidden) |
| `PrototypeProperties.HiddenPublishesNothing` | js/prototype.js:520-545 | a scene of hidden nodes publishes nothing |
| `PrototypeProperties.ItemNodesEffect` | js/prototype.js:275-307 | the item visit completes exactly when every item retargets. It then adds one node per item entry, in order, with the entry's name, location and `inv_data` |
| `PrototypeProperties.ComposedEffect` | js/prototype.js:229-310 | no body entry gives `NoBody`. No body or no animation adds nothing. Every added node is hidden. Otherwise the first body entry becomes node 0 and the rest are items owned by it |
| `PrototypeProperties.ComposedKeepsOnePerLocation` | js/prototype.js:269-305 | adding a bundle keeps one visible item per location |
| `PrototypeProperties.RetargetedPartsSucceeds` | js/prototype.js:287-301 | retargeting succeeds exactly when no skinned part has more bones than the body, and then keeps the number of parts |
| `PrototypeProperties.RetargetedBonesMatchBody` | js/prototype.js:293-297 | unskinned parts are unchanged; each bone of a skinned part keeps its name and takes the body bone's position, rotation and scale |
| `PrototypeProperties.ApplyKeeps` | js/prototype.js:312-484 | every button handler, the sex buttons included, changes only visibility and keeps consistent locations and one visible item per location |
| `PrototypeProperties.RunKeepsOnePerLocation` | js/prototype.js:312-484 | any sequence of button presses changes only visibility and keeps one visible item per location |
| `PrototypeProperties.LoadedLocated` | js/prototype.js:187-227 | every item entry of a bundle `loadBodyandItems` resolved to carries the location of the first catalog item with its name, given that no body is tagged as an item |
| `PrototypeProperties.SceneLocatedConsistent` | js/prototype.js:203-214 | items whose locations come from the catalog have one location per name |
| `PrototypeProperties.ItemNodesLocated` | js/prototype.js:275-284 | item nodes keep the catalog locations of their entries |
| `PrototypeProperties.ComposedLocated` | js/prototype.js:229-310 | adding a resolved bundle keeps every item at its catalog location |
| `PrototypeProperties.StepKeeps` | js/prototype.js:229-484 | adding a resolved bundle or pressing a button keeps catalog locations and one visible item per location |
| `PrototypeProperties.ReplayKeepsOnePerLocation` | js/prototype.js:187-692 | from the fixtures, any interleaving of resolved bundles and button presses keeps every item at its catalog location, consistent locations and one visible item per location |
| `OriginalLoad.Resolve` | js/original.js:262-269 | a loaded result carries its request's name, location and `inv_data` and the loader's payload |
| `OriginalLoad.LoadResources` | js/original.js:271-289 | three texture requests per skin (lower, upper, head), then one per body with an empty location, then one per item, at known indices |
| `OriginalLoad.Resolved` | js/original.js:289 | `Promise.all` yields one result per request, result `i` built from request `i` and payload `i` |
| `OriginalLoad.Gather` | js/original.js:311-332 | the `every` scan over all results yields the bundle that `Gathered` specifies: the last texture per slot and the last `inv_data` |
| `OriginalLoad.AssembledEntry` | js/original.js:311-345 | a skin is in the map exactly when it was already there or its three textures are all present; the map stores the gathered bundle |
| `OriginalLoad.SkinRequestsFill` | js/original.js:274-278 | after loading, a catalog skin's gathered bundle has all three textures and its `inv_data` |
| `OriginalScene.ComposedItems` | js/original.js:374-415 | adding a body's items only appends to the scene |
| `OriginalSession.SkinParts` | js/original.js:73-99 | the reskin of one object's parts is `Traverse` with the skin step, stopping on the `TypeError` |
| `OriginalSession.NameInScene` | js/original.js:380-386 | the flag is `NamePresent`: some object has that name |
| `OriginalSession.FirstResult` | js/original.js:353-354 | the index of the first result with that name, or the length |
| `OriginalSession.Session.constructor` | js/original.js:23-27 | the scene holds the fixtures; the skin map is empty; no body is selected; the sex is male and both numbers are "1" |
| `OriginalSession.Session.SetSkinByName` | js/original.js:62-105 | the scene and outcome are `SkinSelection` of the old scene, the selected body and the skin map |
| `OriginalSession.Session.SetSex` | js/original.js:107-114 | records the sex and changes nothing else |
| `OriginalSession.Session.RemoveAllItems` | js/original.js:116-122 | hides every object tagged `items` |
| `OriginalSession.Session.SetBodyByName` | js/original.js:154-167 | the scene and the selected body change as `BodySelection` specifies |
| `OriginalSession.Session.SetBodyByNumbers` | js/original.js:169-173 | selects the body named from the current sex and numbers |
| `OriginalSession.Session.SetBodyByBodyNumber` | js/original.js:175-178 | records the body number and selects the body named with it |
| `OriginalSession.Session.SetBodyByHeadNumber` | js/original.js:180-183 | records the head number and selects the body named with it |
| `OriginalSession.ChooseAll` | js/original.js:196-206 | the second traversal is `Traverse` with the choose step for the item found |
| `OriginalSession.Session.SetItemByName` | js/original.js:185-207 | the scene and the crash flag are `ItemSelection` of the old scene |
| `OriginalSession.Session.RemItemByName` | js/original.js:209-217 | hides every `items` object with that name |
| `OriginalSession.Session.RemItemByLocation` | js/original.js:219-227 | hides every `items` object at that location |
| `OriginalSession.Session.PublishInvData` | js/original.js:229-254 | the list is `PublishedInvData` of the scene |
| `OriginalSession.Session.MaterialsInvData` | js/original.js:236-242 | collects the defined material `inv_data` of a body's meshes in order |
| `OriginalSession.Session.AssembleSkins` | js/original.js:311-345 | the skin map becomes `Assembled` from the catalog skins and the results |
| `OriginalSession.Session.ComposeItems` | js/original.js:374-415 | the scene and flag become `ComposedItems` for the body's item list |
| `OriginalSession.Session.ComposeBody` | js/original.js:353-427 | the scene and flag become `ComposedBody` for one catalog body |
| `OriginalSession.Session.Compose` | js/original.js:348-428 | the scene and flag become `Composed` over all catalog bodies |
| `OriginalSession.Session.DefaultState` | js/original.js:124-137 | records the sex and dresses the scene as `Dressed` with the outfit |
| `OriginalSession.Session.PreLoadEverything` | js/original.js:291-436 | the skin map is assembled first. If composing every body succeeds, the male default outfit is applied; otherwise the composed scene remains and nothing else changes |
| `OriginalProperties.BodySelectionEffect` | js/original.js:154-167 | every item is hidden, a body is visible exactly when it has the name, everything else is unchanged, and the selection is recorded only if that body exists |
| `OriginalProperties.BodySelectionExclusive` | js/original.js:154-167 | every visible body after selection has the chosen name |
| `OriginalProperties.HidingEffect` | js/original.js:209-227 | removal by name or location hides exactly the matching `items` objects and changes nothing else |
| `OriginalProperties.HidingComplete` | js/original.js:209-227 | afterwards no `items` object with that name, or at that location, is visible, and removing again changes nothing |
| `OriginalProperties.ItemSelectionEffect` | js/original.js:185-207 | it completes exactly when the item exists or every selectable has its name. Then: matching selectables become visible; other selectables at the item's location are hidden; everything else is untouched |
| `OriginalProperties.ItemSelectionIdempotent` | js/original.js:185-207 | a completed selection repeated changes nothing more and completes again |
| `OriginalProperties.ItemSelectionSelects` | js/original.js:185-207 | after a completed selection the named selectables are visible, names and categories are kept and bodies are untouched |
| `OriginalProperties.SkinSelectionEffect` | js/original.js:62-105 | an unknown skin or a missing lower/upper texture changes nothing. It crashes exactly when the head texture is undefined and a target has a head mesh. On success every target part is reskinned and tags are kept |
| `OriginalProperties.SkinSelectionKeepsTags` | js/original.js:71-101 | a reskin that applies, or stops at a missing texture, never changes names, categories or visibility |
| `OriginalProperties.AssembledSkinApplies` | js/original.js:334-340 | a skin the preload assembled always applies: all three of its textures are defined, so the reskin neither warns nor crashes |
| `OriginalProperties.CatalogSkinsAssembled` | js/original.js:271-345 | every catalog skin whose three textures were requested ends up in the map with all three filled |
| `OriginalProperties.DressedWears` | js/original.js:124-137 | a completed default state keeps the scene's size; the outfit's pants are visible; every visible body is the outfit's body |
| `OriginalProperties.NameCountPresent` | js/original.js:380-386 | a name occurs some positive number of times exactly when some object has it |
| `OriginalProperties.ComposedItemsDeduplicate` | js/original.js:379-410 | a name already in the scene keeps its count; any other name occurs at most once after the item loop |
| `OriginalProperties.ComposedItemsOnce` | js/original.js:348-428 | with no body of that name and none in the scene, composing every body leaves at most one object with the name |
| `OriginalProperties.ComposedBodyOnce` | js/original.js:353-427 | composing one body keeps an item name at most once |
| `OriginalProperties.ComposedBodyOrder` | js/original.js:374-419 | the old scene is a prefix and every added object is hidden. When the body completes and adds anything, its items come first and the body itself is last, tagged with its name and category |
| `OriginalProperties.ComposedItemsAdded` | js/original.js:388-409 | every object the item loop adds is hidden and named from the body's list |
| `OriginalProperties.PublishedAppend` | js/original.js:229-247 | publishing a split scene concatenates the two halves' lists |
| `OriginalProperties.PublishedHiddenSuffix` | js/original.js:229-247 | appending hidden objects changes nothing that is published |
| `OriginalProperties.ComposedPublishesNothing` | js/original.js:358-419 | preloading appends only hidden objects and so publishes nothing new |
| `OriginalProperties.SkinPublished` | js/original.js:84 | after reskinning a visible body, its published entries start with the body's own path and the skin's `inv_data` follows at a later position |
| `OriginalProperties.SkinAppliedPublished` | js/original.js:229-247 | after a skin applies, the published list holds a targeted visible body's path and, later, the skin's `inv_data` |
| `OriginalProperties.PublishedAt` | js/original.js:229-247 | entry k of object i is published right after the entries of the objects before it |
| `OriginalProperties.PublishedAround` | js/original.js:229-247 | the list of a scene is what precedes an object, then the object's entries, then what follows |
| `OriginalProperties.MaterialInvDataMember` | js/original.js:236-242 | a mesh's defined material `inv_data` is collected |
| `OrigPrototype.Resolve` | js/orig_prototype.js:92-104 | a loaded entry carries its request's name, category, location and `inv_data` and the payload |
| `OrigPrototype.Resolved` | js/orig_prototype.js:168 | `Promise.all` pairs every request with its payload in order |
| `OrigPrototype.LoadResources` | js/orig_prototype.js:106-169 | three texture requests per skin, one per body with an empty location, one per item, each at its index |
| `OrigPrototype.Keep` | js/orig_prototype.js:176-192 | the `forEach`/`push` loop builds exactly the filtered list |
| `OrigPrototype.SelectTier` | js/orig_prototype.js:171-196 | the bodies, items and skins of the tier are selected and requested as `LoadResources` does |
| `OrigPrototype.PreloadStartData` | js/orig_prototype.js:171-196 | requests exactly the entries whose `preload` is true |
| `OrigPrototype.LoadMainData` | js/orig_prototype.js:209-234 | requests exactly the entries whose `preload` is false |
| `OrigPrototype.Viewer.constructor` | js/orig_prototype.js:58 | the scene holds the four untagged fixtures and the skin map is empty |
| `OrigPrototype.Viewer.AddToScene2` | js/orig_prototype.js:329-368 | the scene, the skin map and the crash flag become `Added` of the old ones over the loaded entries |
| `OrigPrototypeProperties.TierMembers` | js/orig_prototype.js:176-230 | a body, item or skin is in a tier exactly when it is in the catalog with that `preload` value |
| `OrigPrototypeProperties.TiersDisjoint` | js/orig_prototype.js:176-230 | no entry is in both tiers, and an entry without `preload` is in neither |
| `OrigPrototypeProperties.TiersCover` | js/orig_prototype.js:176-230 | when every body has a `preload` flag, the two tiers together hold every body |
| `OrigPrototypeProperties.TiersCoverBodies` | js/orig_prototype.js:176-218 | the two body filters of the tiers split the flagged body list |
| `OrigPrototypeProperties.AddedSplit` | js/orig_prototype.js:329-368 | the pass completes exactly when every body or item entry holds a glTF. It then appends one node per model entry in order, and the skin map is the merge of the skin entries alone |
| `OrigPrototypeProperties.MergedDomain` | js/orig_prototype.js:347-365 | a skin is in the merged map exactly when it was there or some entry names it |
| `OrigPrototypeProperties.MergedSlot` | js/orig_prototype.js:358-363 | each slot of a merged skin holds the last texture loaded for it, else what the map held, else the placeholder |
| `OrigPrototypeProperties.MergedInvData` | js/orig_prototype.js:364 | a merged skin carries the `inv_data` of its last entry |
| `OrigPrototypeProperties.MergedUntouched` | js/orig_prototype.js:347-365 | a skin no entry names keeps its bundle |
| `OrigPrototypeProperties.MergedEntry` | js/orig_prototype.js:347-365 | membership, slots, `inv_data` and untouched skins of the merged map, together |
| `OrigPrototypeProperties.AllSlotsLoaded` | js/orig_prototype.js:347-365 | once a skin's lower, upper and head textures have loaded, in any order, all three slots hold textures |
| `OrigPrototypeProperties.TierSkinsLoaded` | js/orig_prototype.js:106-140 | every skin of a tier whose results are merged ends up with all three slots filled |
| `OrigPrototypeProperties.AsWrittenLeavesUndefined` | js/orig_prototype.js:348-356 | as written, a first lower texture for a new skin leaves upper and head `undefined`, where the corrected merge leaves the placeholder |
| `OrigPrototypeProperties.AsWrittenAgreesOnLoadedSlots` | js/orig_prototype.js:348-365 | as written and corrected merges agree on every slot that holds a texture |
| `OrigPrototypeProperties.MergeStepAgrees` | js/orig_prototype.js:348-365 | one merge step as written keeps the map in agreement with the corrected step |
| `OrigPrototypeProperties.MergedAsWrittenAgrees` | js/orig_prototype.js:347-365 | over any entries, the map as written has the same skins and `inv_data` as the corrected one, and each slot is equal or `undefined` against the placeholder |
| `OrigPrototypeProperties.MergedAsWrittenSlot` | js/orig_prototype.js:347-365 | at one skin and slot: the same membership, the same `inv_data`, the same loaded texture, and otherwise only `undefined` against the placeholder |

## Left out

- Rendering: WebGL, the camera, lights, animation mixers, resize handlers and the render loop. None of these affects selection state.
- DOM output: the debug panel, the `continue`, `loading` and `controls` elements and console logging. `CheckCompleteness`, `LoadTracker` and the outcome values return the booleans that drive this output.
- Fetching `data.json` and the network loaders. Payloads for the loaders' requests are a sequence parameter, so asynchronous completion order is not modelled. `Resolved` pairs payloads with requests in order, as `Promise.all` does.
- Promise concurrency in `js/prototype.js:659-692`. A `LoadMapAsWritten.Loaded` call stands only for a background callback that reaches the filter at line 675, in whatever order those callbacks run. A load that rejects on an unknown item (lines 205-207), or whose `addToScene` throws (line 671), makes no call; `PrototypeLoad.FailedLoadNeverSignalled` covers that case. The corrected `LoadTracker.Settled` is called once per load as it settles, either way.
- `SkeletonUtils.clone`, `AnimationObjectGroup` and the mixer. A clone is the model's parts copied into a node. Animation only matters as "there is a clip" (`animations > 0`).
- Random placement of models in `js/orig_prototype.js:335-339`. Positions, rotations and scales are opaque values, and no floating-point arithmetic is modelled.
- Texture `flipY` and `encoding` settings in `js/original.js:78-96`. They do not affect which texture is chosen.
- `JSON.stringify` of the published list. The model returns the list itself; `publishInvData` in `js/prototype.js:520-545` returns nothing and only logs that JSON, so `PrototypeSession.Session.PublishInvData` returns what it logs.
- Owner scoping in `js/original.js`: it has none, so no owner is modelled there.
- `initWebGL` in `js/orig_prototype.js:245-327`. It ignores the data it is given and only builds the renderer and fixtures (`OrigPrototype.Viewer.constructor`). Nothing in that file calls `addToScene2`.
- `addToScene(data, false)` at `js/orig_prototype.js:238`. It calls a function that file does not define. The resulting `ReferenceError` is caught and logged, so the background tier reaches no scene. The model gives `loadMainData` its requests and leaves that call out.
- `OrigPrototype.Viewer.AddToScene2`: it applies the corrected merge `MergeSkinEntry`, not the code's `MergeSkinEntryAsWritten`. `OrigPrototype.MergedAsWritten` folds the code's merge, and `OrigPrototypeProperties.MergedAsWrittenAgrees` shows the two maps differ only where a slot no entry has reached is `undefined` instead of `""`.
- Module loading of `js/orig_prototype.js`: lines 40-42 assign `setItemByName`, `remItemByName` and `remItemByLocation` to `window`, but the file declares none of them. Evaluating the module therefore throws a `ReferenceError` at line 40. The file itself never calls `startApp` (lines 370-376 only define it), and `js/original.js` never calls `init` (lines 438-512), the only caller of `preLoadEverything`. The model describes these files' functions as if those three lines were absent and some caller invoked the entry points.
- `OrigPrototype.InTier`: `preload` is an optional boolean. The code tests truthiness for the start tier (line 177) and loose `== false` for the background tier (line 215), so values such as `1`, `"yes"`, `0` or `""` that JavaScript would place in a tier cannot be expressed.
- `OrigPrototypeProperties.TiersCover`: it is stated for bodies. Items and skins satisfy the same split through `Common.FilterSplit`.

## Findings

| source | as written | input that shows it | evidently intended | confidence | as-written member | corrected member |
|---|---|---|---|---|---|---|
| js/orig_prototype.js:348-356 | `stm = skinTextureMap.set(...)` stores the `Map` that `set` returns, so `stm.lower`, `stm.upper` and `stm.head` read `undefined` instead of the `""` placeholders just inserted | the first entry of a new skin `male_skin_1` with location `lower` leaves its upper and head slots `undefined` | a new skin starts with placeholders in the slots not yet loaded, and only loaded slots change | not executed | `OrigPrototype.MergeSkinEntryAsWritten` | `OrigPrototype.MergeSkinEntry` |
| js/prototype.js:646-686 | the "rest of data is loaded" signal is only given inside a background load callback | a catalog whose only body is the default `male_body_1_head_1`: the pending list starts empty, no callback runs, and the controls never appear | signal "fully loaded" as soon as no background body is pending, including at the start | not executed | `PrototypeLoad.LoneBodyNeverSignalled` | `PrototypeLoad.LoadTracker.constructor` |
| js/prototype.js:666-690 | a body leaves the load map only in the success callback, after `addToScene` | a second catalog body that lists an item missing from the catalog: its load rejects, its name stays in the map, and the controls never appear although no load is outstanding | drop a body from the map once its load settles, whether it succeeded or not | not executed | `PrototypeLoad.FailedLoadNeverSignalled` | `PrototypeLoad.SettledLoadsSignal` |

`OrigPrototypeProperties.AsWrittenLeavesUndefined` exhibits the first
discrepancy on the input named there. `OrigPrototypeProperties.MergedEntry`
and `OrigPrototypeProperties.AllSlotsLoaded` prove the intended behaviour of
the corrected merge, and `OrigPrototype.Viewer.AddToScene2` uses that merge.
For the second row, `PrototypeLoad.LoadMapAsWritten` keeps the controls
hidden from the start, and `PrototypeLoad.LoneBodyNeverSignalled` shows that
no completion can ever show them when the map starts empty. The corrected
`PrototypeLoad.LoadTracker.constructor` starts fully loaded in that case, and
`PrototypeLoad.LoadTracker.Settled` signals once the last pending body
settles. For the third row, `PrototypeLoad.FailedLoadNeverSignalled` shows
that a body that never reaches the filter blocks the signal for good. The
corrected `PrototypeLoad.LoadTracker` is told about every load as it settles,
fulfilled or rejected. `PrototypeLoad.LoadTracker.Settled` ensures
"fully loaded" exactly when every body of the initial map has settled.
`PrototypeLoad.SettledLoadsSignal` shows the contrast on one rejected body:
the map as written stays non-empty, and the settled map runs empty.
