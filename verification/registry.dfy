/** The bounding-box registry of the loader script: one entity per loaded
    box, named `bbox-<id>`, each with its own `enabled` flag and a child
    collision volume whose `render.enabled` flag decides whether clicks can
    reach it. Focus mode, show/hide all, clearing and the replace-on-load
    sequence are pure updates of this state. */
module BoxRegistry {
  import opened Optional
  import opened JsText
  import opened Geometry

  /** One entry of a scene document's `boundingBoxes` array. */
  datatype BoxData = BoxData(
    id: string,
    boxLabel: string,
    position: Vec3,
    size: Vec3,
    rotation: Vec3,
    color: Vec3,
    confidence: real)

  /** A box entity as the registry holds it: its name, its own `enabled`
      flag, the `render.enabled` flag of its collision volume, the box it was
      made from, and the world position and local scale of the collision
      volume that ray tests read. */
  datatype BoxEntity = BoxEntity(
    name: string,
    enabled: bool,
    collisionRender: bool,
    data: BoxData,
    position: Vec3,
    scale: Vec3)

  /** The loader's state: the entities, the focused id (`activeBoxId`,
      undefined until the first focus change) and the JSON URL boxes are
      fetched from. `requested`, the number of loads requested so far, is
      not a field of the loader: it is the ticket that only the corrected
      completion `CompleteLatestLoad` reads; the completion as written,
      `CompleteLoad`, ignores it. */
  datatype Registry = Registry(
    entities: seq<BoxEntity>,
    activeBoxId: Option<string>,
    jsonUrl: string,
    requested: nat)

  const NamePrefix: string := "bbox-"

  const ApartmentUrl: string := "assets/box_data/apartment_rad_det_boxes.json"
  const OfficeUrl: string := "assets/box_data/saffraan_rad_det_boxes.json"

  /** The name an entity gets from its box id. */
  function EntityName(id: string): string {
    NamePrefix + id
  }

  /** The box id read back from an entity name: the first `bbox-` in the
      name is removed, wherever it is. */
  function BoxIdOf(name: string): string {
    ReplaceFirst(name, NamePrefix, "")
  }

  /** Reading the id back from an entity's name gives the id it was named
      after. */
  lemma BoxIdOfEntityName(id: string)
    ensures BoxIdOf(EntityName(id)) == id
  {
    ReplaceFirstOfPrefixed(NamePrefix, id);
  }

  /** So distinct boxes get distinct names. */
  lemma EntityNameInjective(a: string, b: string)
    requires EntityName(a) == EntityName(b)
    ensures a == b
  {
    BoxIdOfEntityName(a);
    BoxIdOfEntityName(b);
  }

  /** The size of a box is given Z-up; the scene is Y-up, so the Y and Z
      extents change places: `[x, z, y]`. */
  function SwapYZ(size: Vec3): (r: Vec3)
    ensures r.x == size.x && r.y == size.z && r.z == size.y
  {
    Vec3(size.x, size.z, size.y)
  }

  lemma SwapYZInvolution(v: Vec3)
    ensures SwapYZ(SwapYZ(v)) == v
  {
  }

  /** `createBoundingBox`: a new, enabled entity named after the box, whose
      collision volume renders, sits where `place` puts the box position in
      the world, and is scaled to the swapped size. */
  function CreateEntity(box: BoxData, place: Vec3 -> Vec3): (e: BoxEntity)
    ensures BoxIdOf(e.name) == box.id
    ensures e.enabled && e.collisionRender && e.data == box
    ensures e.scale == SwapYZ(box.size) && e.position == place(box.position)
  {
    BoxIdOfEntityName(box.id);
    BoxEntity(EntityName(box.id), true, true, box, place(box.position), SwapYZ(box.size))
  }

  function CreateEntities(boxes: seq<BoxData>, place: Vec3 -> Vec3): (es: seq<BoxEntity>)
    ensures |es| == |boxes|
    ensures forall i :: 0 <= i < |boxes| ==> es[i] == CreateEntity(boxes[i], place)
  {
    seq(|boxes|, i requires 0 <= i < |boxes| => CreateEntity(boxes[i], place))
  }

  // ---------------------------------------------------------------------
  // Focus mode

  /** `!activeBoxId` is false: a non-empty id. `null`, `undefined` and the
      empty string all mean "show everything". */
  predicate Focuses(sel: Option<string>) {
    sel.Some? && sel.value != ""
  }

  /** What `setActiveBox` does to one entity. */
  function FocusEntity(e: BoxEntity, sel: Option<string>): BoxEntity {
    var matches := Focuses(sel) && BoxIdOf(e.name) == sel.value;
    var shouldShow := !Focuses(sel) || matches;
    e.(enabled := shouldShow,
       collisionRender := if matches then false else if shouldShow then true else e.collisionRender)
  }

  /** `setActiveBox(sel)`. Without a focus every entity and every collision
      volume is switched on. With focus id `f`, an entity stays enabled
      exactly when its name decodes to `f`; that entity's collision volume is
      switched off and every other entity keeps its collision flag. Nothing
      but the two flags and `activeBoxId` changes. */
  function SetActive(reg: Registry, sel: Option<string>): (r: Registry)
    ensures r.activeBoxId == sel && r.jsonUrl == reg.jsonUrl && r.requested == reg.requested
    ensures |r.entities| == |reg.entities|
    ensures forall i :: 0 <= i < |reg.entities| ==>
      r.entities[i].(enabled := reg.entities[i].enabled, collisionRender := reg.entities[i].collisionRender)
        == reg.entities[i]
    ensures !Focuses(sel) ==> forall i :: 0 <= i < |r.entities| ==>
      r.entities[i].enabled && r.entities[i].collisionRender
    ensures Focuses(sel) ==> forall i :: 0 <= i < |r.entities| ==>
      (r.entities[i].enabled <==> BoxIdOf(reg.entities[i].name) == sel.value)
    ensures Focuses(sel) ==> forall i :: 0 <= i < |r.entities| && BoxIdOf(reg.entities[i].name) == sel.value ==>
      !r.entities[i].collisionRender
    ensures Focuses(sel) ==> forall i :: 0 <= i < |r.entities| && BoxIdOf(reg.entities[i].name) != sel.value ==>
      r.entities[i].collisionRender == reg.entities[i].collisionRender
  {
    var es := seq(|reg.entities|, i requires 0 <= i < |reg.entities| => FocusEntity(reg.entities[i], sel));
    reg.(entities := es, activeBoxId := sel)
  }

  /** `showAllBoxes`: every entity and every collision volume switched on
      and the focus dropped; nothing else changes. */
  function ShowAll(reg: Registry): (r: Registry)
    ensures r.activeBoxId.None? && r.jsonUrl == reg.jsonUrl && r.requested == reg.requested
    ensures |r.entities| == |reg.entities|
    ensures forall i :: 0 <= i < |r.entities| ==> r.entities[i].enabled && r.entities[i].collisionRender
    ensures forall i :: 0 <= i < |r.entities| ==>
      r.entities[i].(enabled := reg.entities[i].enabled, collisionRender := reg.entities[i].collisionRender)
        == reg.entities[i]
  {
    SetActive(reg, None)
  }

  /** `hideAllBoxes`: every entity disabled; the collision flags, the focus
      and the list itself are left as they were. */
  function HideAll(reg: Registry): (r: Registry)
    ensures r.activeBoxId == reg.activeBoxId && r.jsonUrl == reg.jsonUrl && r.requested == reg.requested
    ensures |r.entities| == |reg.entities|
    ensures forall i :: 0 <= i < |r.entities| ==>
      !r.entities[i].enabled && r.entities[i].(enabled := true) == reg.entities[i].(enabled := true)
  {
    var es := seq(|reg.entities|, i requires 0 <= i < |reg.entities| => reg.entities[i].(enabled := false));
    reg.(entities := es)
  }

  /** `clearBoxes`: every entity destroyed. The focus is not reset. */
  function Clear(reg: Registry): (r: Registry)
    ensures r.entities == []
    ensures r.activeBoxId == reg.activeBoxId && r.jsonUrl == reg.jsonUrl && r.requested == reg.requested
  {
    reg.(entities := [])
  }

  /** Showing everything forgets any earlier focus: it ends in the same state
      whatever focus was set before. */
  lemma ShowAllAfterSetActive(reg: Registry, sel: Option<string>)
    ensures ShowAll(SetActive(reg, sel)) == ShowAll(reg)
  {
    var a := ShowAll(SetActive(reg, sel));
    var b := ShowAll(reg);
    assert |a.entities| == |b.entities|;
    forall i | 0 <= i < |a.entities| ensures a.entities[i] == b.entities[i] {
    }
  }

  /** Showing everything undoes hiding everything. */
  lemma ShowAllAfterHideAll(reg: Registry)
    ensures ShowAll(HideAll(reg)) == ShowAll(reg)
  {
    var a := ShowAll(HideAll(reg));
    var b := ShowAll(reg);
    assert |a.entities| == |b.entities|;
    forall i | 0 <= i < |a.entities| ensures a.entities[i] == b.entities[i] {
    }
  }

  /** Focusing a box and then showing everything restores a registry in which
      everything was shown. */
  lemma FocusThenShowAllRestores(reg: Registry, id: string)
    requires reg.activeBoxId.None?
    requires forall i :: 0 <= i < |reg.entities| ==> reg.entities[i].enabled && reg.entities[i].collisionRender
    ensures ShowAll(SetActive(reg, Some(id))) == reg
  {
    ShowAllAfterSetActive(reg, Some(id));
    var s := ShowAll(reg);
    assert |s.entities| == |reg.entities|;
    forall i | 0 <= i < |s.entities| ensures s.entities[i] == reg.entities[i] {
    }
  }

  /** Focusing the box an entity was created from leaves that entity, and
      only entities with the same id, visible. */
  lemma FocusShowsCreatedEntity(reg: Registry, k: nat, box: BoxData, place: Vec3 -> Vec3)
    requires k < |reg.entities| && reg.entities[k] == CreateEntity(box, place) && box.id != ""
    ensures var r := SetActive(reg, Some(box.id));
      r.entities[k].enabled && !r.entities[k].collisionRender
  {
  }

  // ---------------------------------------------------------------------
  // Loading

  /** How a fetch of the scene document ended: with the document's
      `boundingBoxes` array, or with a network, status or decoding error. */
  datatype FetchOutcome = Fetched(boxes: seq<BoxData>) | FetchFailed

  /** The synchronous half of `loadBoundingBoxes`: the registry is cleared
      and the fetch is started. Its number is the returned ticket. */
  function BeginLoad(reg: Registry): (r: Registry)
    ensures r.entities == [] && r.requested == reg.requested + 1
    ensures r.activeBoxId == reg.activeBoxId && r.jsonUrl == reg.jsonUrl
  {
    Clear(reg).(requested := reg.requested + 1)
  }

  /** The fetch callback of `loadBoundingBoxes` as written: the boxes of the
      document are appended to whatever entities are there, one entity per
      box in document order; a failed fetch changes nothing. */
  function CompleteLoad(reg: Registry, outcome: FetchOutcome, place: Vec3 -> Vec3): (r: Registry)
    ensures r.activeBoxId == reg.activeBoxId && r.jsonUrl == reg.jsonUrl && r.requested == reg.requested
    ensures outcome.FetchFailed? ==> r == reg
    ensures outcome.Fetched? ==> |r.entities| == |reg.entities| + |outcome.boxes|
    ensures outcome.Fetched? ==> r.entities[..|reg.entities|] == reg.entities
    ensures outcome.Fetched? ==> forall i :: 0 <= i < |outcome.boxes| ==>
      r.entities[|reg.entities| + i] == CreateEntity(outcome.boxes[i], place)
  {
    match outcome
    case FetchFailed => reg
    case Fetched(boxes) => reg.(entities := reg.entities + CreateEntities(boxes, place))
  }

  /** The fetch callback with each response checked against the latest
      request: a response to an earlier request is dropped, and the latest
      one replaces the entities. */
  function CompleteLatestLoad(reg: Registry, ticket: nat, outcome: FetchOutcome, place: Vec3 -> Vec3): (r: Registry)
    ensures ticket != reg.requested ==> r == reg
    ensures r.activeBoxId == reg.activeBoxId && r.jsonUrl == reg.jsonUrl && r.requested == reg.requested
    ensures ticket == reg.requested && outcome.Fetched? ==> r.entities == CreateEntities(outcome.boxes, place)
    ensures outcome.FetchFailed? ==> r == reg
  {
    if ticket != reg.requested then reg
    else match outcome
      case FetchFailed => reg
      case Fetched(boxes) => reg.(entities := CreateEntities(boxes, place))
  }

  /** A load run to completion, as written: it starts from an empty registry
      and ends with exactly one entity per loaded box, in document order,
      each named after its box; nothing of the previous scene survives, and a
      failed fetch leaves the registry empty. */
  lemma LoadReplaces(reg: Registry, outcome: FetchOutcome, place: Vec3 -> Vec3)
    ensures var r := CompleteLoad(BeginLoad(reg), outcome, place);
      && (outcome.FetchFailed? ==> r.entities == [])
      && (outcome.Fetched? ==> |r.entities| == |outcome.boxes|)
      && (outcome.Fetched? ==> forall i :: 0 <= i < |outcome.boxes| ==>
            BoxIdOf(r.entities[i].name) == outcome.boxes[i].id && r.entities[i].data == outcome.boxes[i])
  {
  }

  /** For a load that is not overtaken by another, the checked callback
      behaves as the callback as written. */
  lemma LatestLoadAgreesWhenAlone(reg: Registry, outcome: FetchOutcome, place: Vec3 -> Vec3)
    ensures var b := BeginLoad(reg);
      CompleteLatestLoad(b, b.requested, outcome, place) == CompleteLoad(b, outcome, place)
  {
    var b := BeginLoad(reg);
    if outcome.Fetched? {
      assert [] + CreateEntities(outcome.boxes, place) == CreateEntities(outcome.boxes, place);
    }
  }

  /** Two loads requested one after the other whose responses both arrive:
      as written, the registry ends up holding the boxes of both scenes. */
  lemma OverlappingLoadsAccumulate(reg: Registry, first: seq<BoxData>, second: seq<BoxData>, place: Vec3 -> Vec3)
    ensures var twice := BeginLoad(BeginLoad(reg));
      var r := CompleteLoad(CompleteLoad(twice, Fetched(first), place), Fetched(second), place);
      |r.entities| == |first| + |second|
  {
  }

  /** With the check, the same interleaving leaves only the boxes of the
      latest request, whichever order the responses arrive in. */
  lemma OverlappingLatestLoadsReplace(reg: Registry, first: seq<BoxData>, second: seq<BoxData>, place: Vec3 -> Vec3)
    ensures var one := BeginLoad(reg);
      var two := BeginLoad(one);
      && CompleteLatestLoad(CompleteLatestLoad(two, one.requested, Fetched(first), place),
                            two.requested, Fetched(second), place).entities == CreateEntities(second, place)
      && CompleteLatestLoad(CompleteLatestLoad(two, two.requested, Fetched(second), place),
                            one.requested, Fetched(first), place).entities == CreateEntities(second, place)
  {
  }

  /** `loadBoundingBoxesForScene`: the two scenes with box data switch the
      URL and start a load; any other scene id clears the registry. */
  function LoadForScene(reg: Registry, sceneId: string): (r: Registry)
    ensures r.entities == []
    ensures sceneId == "apartment" ==> r == BeginLoad(reg.(jsonUrl := ApartmentUrl))
    ensures sceneId == "office" ==> r == BeginLoad(reg.(jsonUrl := OfficeUrl))
    ensures sceneId != "apartment" && sceneId != "office" ==> r == Clear(reg)
  {
    match SceneUrl(sceneId)
    case Some(url) => BeginLoad(reg.(jsonUrl := url))
    case None => Clear(reg)
  }

  /** The URL of each scene that has box data. */
  function SceneUrl(sceneId: string): Option<string> {
    if sceneId == "apartment" then Some(ApartmentUrl)
    else if sceneId == "office" then Some(OfficeUrl)
    else None
  }
}
