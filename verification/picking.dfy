/** The loader's mouse handlers. A click picks the nearest box the ray hits
    among the shown boxes whose collision volume renders, and focuses it; a
    hover only decides the cursor, and does not look at the collision flag. */
module Picking {
  import opened Optional
  import opened Geometry
  import opened BoxRegistry

  /** The ray test of one entity's collision volume. */
  function HitOf(e: BoxEntity, origin: Vec3, dir: Vec3): Option<Ext> {
    RayBoxIntersect(origin, dir, e.position, e.scale)
  }

  /** An entity a click can land on: shown, with a rendering collision
      volume. */
  predicate Clickable(e: BoxEntity) {
    e.enabled && e.collisionRender
  }

  /** A clickable entity the ray hits, with the distance of the hit. */
  predicate Candidate(e: BoxEntity, origin: Vec3, dir: Vec3) {
    Clickable(e) && HitOf(e, origin, dir).Some?
  }

  /** What the pick loop sees of each entity: its hit distance when it is
      clickable and hit, nothing when it is skipped or missed. */
  function Candidates(es: seq<BoxEntity>, origin: Vec3, dir: Vec3): (cs: seq<Option<Ext>>)
    ensures |cs| == |es|
    ensures forall j :: 0 <= j < |es| ==> (cs[j].Some? <==> Candidate(es[j], origin, dir))
    ensures forall j :: 0 <= j < |es| && cs[j].Some? ==> HitOf(es[j], origin, dir) == cs[j]
  {
    seq(|es|, j requires 0 <= j < |es| => if Clickable(es[j]) then HitOf(es[j], origin, dir) else None)
  }

  /** The pick loop of the mousedown handler. The distance starts at
      `Infinity` and is replaced only by a strictly smaller one, so the
      result is the candidate with the least distance, the earliest of
      several at that distance, and nothing when every candidate is at
      `Infinity`. */
  method PickClosest(cs: seq<Option<Ext>>) returns (pick: Option<nat>)
    ensures pick.None? <==> forall j :: 0 <= j < |cs| && cs[j].Some? ==> cs[j].value == PosInf
    ensures pick.Some? ==> pick.value < |cs| && cs[pick.value].Some? && cs[pick.value].value != PosInf
    ensures pick.Some? ==> forall j :: 0 <= j < |cs| && cs[j].Some? ==> Le(cs[pick.value].value, cs[j].value)
    ensures pick.Some? ==> forall j :: 0 <= j < pick.value && cs[j].Some? ==> Lt(cs[pick.value].value, cs[j].value)
  {
    var closest := PosInf;
    pick := None;
    var i := 0;
    while i < |cs|
      invariant 0 <= i <= |cs|
      invariant pick.None? <==> closest == PosInf
      invariant pick.None? ==> forall j :: 0 <= j < i && cs[j].Some? ==> cs[j].value == PosInf
      invariant pick.Some? ==> pick.value < i && cs[pick.value] == Some(closest) && closest != PosInf
      invariant forall j :: 0 <= j < i && cs[j].Some? ==> Le(closest, cs[j].value)
      invariant pick.Some? ==> forall j :: 0 <= j < pick.value && cs[j].Some? ==> Lt(closest, cs[j].value)
    {
      if cs[i].Some? && Lt(cs[i].value, closest) {
        closest := cs[i].value;
        pick := Some(i);
      }
      i := i + 1;
    }
  }

  /** The hover loop of the mousemove handler: some shown entity is hit,
      whether or not its collision volume renders. */
  function Hovering(es: seq<BoxEntity>, origin: Vec3, dir: Vec3): (r: bool)
    ensures r <==> exists j :: 0 <= j < |es| && es[j].enabled && HitOf(es[j], origin, dir).Some?
  {
    if es == [] then false
    else if es[0].enabled && HitOf(es[0], origin, dir).Some? then true
    else
      var rest := Hovering(es[1..], origin, dir);
      assert forall j :: 1 <= j < |es| ==> es[j] == es[1..][j - 1];
      rest
  }

  datatype Cursor = Pointer | Default

  /** The cursor after a mouse move. With no entities the handler returns
      before touching the cursor. */
  function OnMouseMove(cursor: Cursor, reg: Registry, cameraFound: bool, origin: Vec3, dir: Vec3): (c: Cursor)
    ensures |reg.entities| == 0 || !cameraFound ==> c == cursor
    ensures |reg.entities| > 0 && cameraFound ==> (c == Pointer <==> Hovering(reg.entities, origin, dir))
  {
    if |reg.entities| == 0 || !cameraFound then cursor
    else if Hovering(reg.entities, origin, dir) then Pointer
    else Default
  }

  /** A left-button press as the handler sees it: the button, whether it
      landed on an interface element, whether a camera was found, the camera
      position, the far-plane point under the mouse, and the normalised
      direction from the camera to it. */
  datatype MouseDown = MouseDown(
    button: int,
    onInterface: bool,
    cameraFound: bool,
    origin: Vec3,
    farPoint: Vec3,
    dir: Vec3)

  /** The mousedown handler. Presses of other buttons, presses on the
      interface, presses with nothing loaded or no camera, and presses whose
      far-plane point has `x == 0` (the `!worldPos.x` guard) are ignored.
      Otherwise the picked box, if any, is focused and returned together with
      its index: it is the candidate with the least hit distance, the first
      of several at that distance. */
  method OnMouseDown(reg: Registry, ev: MouseDown) returns (r: Registry, selected: Option<BoxData>, picked: Option<nat>)
    ensures selected.Some? <==> picked.Some?
    ensures picked.Some? ==> picked.value < |reg.entities| && selected.value == reg.entities[picked.value].data
    ensures picked.Some? ==> Candidate(reg.entities[picked.value], ev.origin, ev.dir)
    ensures picked.Some? ==> HitOf(reg.entities[picked.value], ev.origin, ev.dir).value != PosInf
    ensures picked.Some? ==> forall j :: 0 <= j < |reg.entities| && Candidate(reg.entities[j], ev.origin, ev.dir) ==>
      Le(HitOf(reg.entities[picked.value], ev.origin, ev.dir).value, HitOf(reg.entities[j], ev.origin, ev.dir).value)
    ensures picked.Some? ==> forall j :: 0 <= j < picked.value && Candidate(reg.entities[j], ev.origin, ev.dir) ==>
      Lt(HitOf(reg.entities[picked.value], ev.origin, ev.dir).value, HitOf(reg.entities[j], ev.origin, ev.dir).value)
    ensures selected.None? ==> r == reg
    ensures ev.button != 0 || ev.onInterface || |reg.entities| == 0 || !ev.cameraFound || ev.farPoint.x == 0.0
      ==> selected.None?
    ensures selected.Some? ==> r == SetActive(reg, Some(selected.value.id))
    ensures selected.Some? ==>
      exists k :: 0 <= k < |reg.entities| && reg.entities[k].data == selected.value && Candidate(reg.entities[k], ev.origin, ev.dir)
    ensures ev.button == 0 && !ev.onInterface && ev.cameraFound && ev.farPoint.x != 0.0 &&
      (exists k :: 0 <= k < |reg.entities| && Candidate(reg.entities[k], ev.origin, ev.dir)
         && HitOf(reg.entities[k], ev.origin, ev.dir).value.Fin?)
      ==> selected.Some?
  {
    r, selected, picked := reg, None, None;
    if ev.button != 0 || ev.onInterface || |reg.entities| == 0 || !ev.cameraFound || ev.farPoint.x == 0.0 {
      return;
    }
    var cs := Candidates(reg.entities, ev.origin, ev.dir);
    var pick := PickClosest(cs);
    picked := pick;
    if pick.Some? {
      var box := reg.entities[pick.value].data;
      selected := Some(box);
      r := SetActive(reg, Some(box.id));
    }
  }

  /** In focus mode no entity can be clicked: the focused ones have their
      collision volume switched off and all others are hidden. */
  lemma FocusedRegistryHasNoClickTargets(reg: Registry, id: string)
    requires id != ""
    ensures forall j :: 0 <= j < |SetActive(reg, Some(id)).entities| ==>
      !Clickable(SetActive(reg, Some(id)).entities[j])
  {
  }

  /** ... yet the focused box still shows the pointer when the mouse is over
      it, since the hover test ignores the collision flag. */
  lemma FocusedBoxStillHovers(reg: Registry, k: nat, origin: Vec3, dir: Vec3)
    requires k < |reg.entities|
    requires var id := BoxIdOf(reg.entities[k].name);
      id != "" && HitOf(reg.entities[k], origin, dir).Some?
    ensures var r := SetActive(reg, Some(BoxIdOf(reg.entities[k].name)));
      Hovering(r.entities, origin, dir)
  {
    var r := SetActive(reg, Some(BoxIdOf(reg.entities[k].name)));
    assert r.entities[k].enabled;
    assert r.entities[k].position == reg.entities[k].position && r.entities[k].scale == reg.entities[k].scale;
  }
}
