/** The decision rules of the viewer page's panel script: the objects list,
    the annotation title and description, the bounding-box visibility toggle
    and its interplay with closing the annotation, and scene switching. */
module Panel {
  import opened Optional
  import opened JsText
  import opened LabelOrder
  import opened Geometry
  import opened BoxRegistry

  // ---------------------------------------------------------------------
  // Objects list

  /** How fetching a scene's box document for the objects list ended: the
      labels of its boxes (none when the array is missing or empty), or a
      failed fetch or parse. */
  datatype ObjectsFetch = ObjectsLoaded(labels: seq<string>) | ObjectsFailed

  const NoObjectsRow: string := "No objects detected"

  /** The rows of the objects section: the distinct labels, sorted, each
      with its first character upper-cased; a single fallback row when the
      document could not be loaded. */
  function ObjectRows(f: ObjectsFetch): (rows: seq<string>)
    ensures f.ObjectsFailed? ==> rows == [NoObjectsRow]
    ensures f.ObjectsLoaded? ==> |rows| == |UniqueSortedLabels(f.labels)|
    ensures f.ObjectsLoaded? ==> forall i :: 0 <= i < |rows| ==> rows[i] == Capitalize(UniqueSortedLabels(f.labels)[i])
  {
    match f
    case ObjectsFailed => [NoObjectsRow]
    case ObjectsLoaded(labels) =>
      var sorted := UniqueSortedLabels(labels);
      seq(|sorted|, i requires 0 <= i < |sorted| => Capitalize(sorted[i]))
  }

  /** `row` is the displayed form of one of `labels`. */
  predicate RowOfSomeLabel(row: string, labels: seq<string>) {
    exists x :: x in labels && row == Capitalize(x)
  }

  /** Every label of the document gets a row, every row comes from a label,
      and there are never more rows than labels. */
  lemma ObjectRowsCoverLabels(labels: seq<string>)
    ensures var rows := ObjectRows(ObjectsLoaded(labels));
      && (forall x :: x in labels ==> Capitalize(x) in rows)
      && (forall i :: 0 <= i < |rows| ==> RowOfSomeLabel(rows[i], labels))
      && |rows| <= |labels|
  {
    var sorted := UniqueSortedLabels(labels);
    var rows := ObjectRows(ObjectsLoaded(labels));
    forall x | x in labels ensures Capitalize(x) in rows {
      var k :| 0 <= k < |sorted| && sorted[k] == x;
      assert rows[k] == Capitalize(x);
    }
    forall i | 0 <= i < |rows| ensures RowOfSomeLabel(rows[i], labels) {
      assert sorted[i] in labels && rows[i] == Capitalize(sorted[i]);
    }
    assert |sorted| <= |labels| by {
      var d := Dedup(labels);
      SortSortsDistinct(d);
      assert |Sort(d)| == |multiset(Sort(d))| == |multiset(d)| == |d|;
    }
  }

  /** Labels that differ only in the case of their first letter are distinct
      labels, so the list shows the same row twice. */
  lemma CapitalizedRowsMayRepeat()
    ensures ObjectRows(ObjectsLoaded(["apple", "Apple"])) == ["Apple", "Apple"]
  {
    var labels := ["apple", "Apple"];
    assert CodeUnitLess("Apple", "apple");
    var sorted := UniqueSortedLabels(labels);
    SortedIsUnique(sorted, ["Apple", "apple"]);
    assert sorted == ["Apple", "apple"];
    assert UpperChar('a') == 'A' && UpperChar('A') == 'A';
    assert Capitalize("apple") == "Apple" && Capitalize("Apple") == "Apple";
    var rows := ObjectRows(ObjectsLoaded(labels));
    assert |rows| == 2 && rows[0] == Capitalize(sorted[0]) && rows[1] == Capitalize(sorted[1]);
  }

  // ---------------------------------------------------------------------
  // Annotation title and description

  const DefaultTitle: string := "Selected Object"

  /** The annotation heading: `Selected Object` for a missing or blank
      title, otherwise the trimmed title with its first character
      upper-cased. */
  function AnnotationTitle(title: Option<string>): (r: string)
    ensures r != []
    ensures title.None? || Trim(title.value) == [] ==> r == DefaultTitle
    ensures title.Some? && Trim(title.value) != [] ==> r == Capitalize(Trim(title.value))
  {
    if title.Some? && Trim(title.value) != [] then Capitalize(Trim(title.value)) else DefaultTitle
  }

  /** A heading is already in its normal form: feeding it back as a title
      gives the same heading. */
  lemma {:induction false} AnnotationTitleIdempotent(title: Option<string>)
    ensures AnnotationTitle(Some(AnnotationTitle(title))) == AnnotationTitle(title)
  {
    var h := AnnotationTitle(title);
    if title.Some? && Trim(title.value) != [] {
      var t := Trim(title.value);
      assert !IsJsSpace(h[0]) && !IsJsSpace(h[|h| - 1]);
      TrimOfTrimmed(h);
      CapitalizeIdempotent(t);
    } else {
      TrimOfTrimmed(DefaultTitle);
    }
  }

  /** The details value as the panel sees it after `JSON.parse`. `JNull`
      stands for both `null` and `undefined` (details not passed at all):
      reading a field of either throws. `JOther` is any other non-object
      value, a number, boolean, string or array, whose fields are all
      absent. String fields are the only ones modelled. */
  datatype Json = JNull | JObject(fields: map<string, string>) | JOther

  /** What callers pass as details: a value, or a string to be parsed. */
  datatype Details = Given(value: Json) | Text(raw: string)

  const FallbackDescription: string := "No additional information available"

  const DescriptionKeys: seq<string> := ["description", "info", "text"]

  /** A field that is present and not the empty string. */
  predicate Truthy(fields: map<string, string>, key: string) {
    key in fields && fields[key] != ""
  }

  /** The value of the first key whose field is truthy: the `a || b || c`
      chain. */
  function FirstTruthy(fields: map<string, string>, keys: seq<string>): (r: Option<string>)
    ensures r.None? <==> forall i :: 0 <= i < |keys| ==> !Truthy(fields, keys[i])
    ensures r.Some? ==>
      exists i :: 0 <= i < |keys| && Truthy(fields, keys[i]) && fields[keys[i]] == r.value
                  && forall j :: 0 <= j < i ==> !Truthy(fields, keys[j])
  {
    if keys == [] then None
    else if Truthy(fields, keys[0]) then Some(fields[keys[0]])
    else
      var r := FirstTruthy(fields, keys[1..]);
      assert forall i :: 1 <= i < |keys| ==> keys[i] == keys[1..][i - 1];
      r
  }

  /** The details object: a given value as it is, a string parsed by `parse`
      (the JSON parser), and a string that does not parse wrapped as
      `{info: details}`. */
  function ParseDetails(d: Details, parse: string -> Option<Json>): (r: Json)
    ensures d.Given? ==> r == d.value
    ensures d.Text? && parse(d.raw).Some? ==> r == parse(d.raw).value
    ensures d.Text? && parse(d.raw).None? ==> r.JObject? && r.fields == map["info" := d.raw]
    ensures r.JNull? <==> d == Given(JNull) || (d.Text? && parse(d.raw) == Some(JNull))
  {
    match d
    case Given(j) => j
    case Text(raw) =>
      match parse(raw)
      case Some(j) => j
      case None => JObject(map["info" := raw])
  }

  /** The description shown: the first truthy of `description`, `info` and
      `text`, else the fallback text. Looking a field up on `null` throws,
      which is `None` here. */
  function Describe(obj: Json): (r: Option<string>)
    ensures r.None? <==> obj.JNull?
    ensures r.Some? ==> r.value != ""
    ensures obj.JOther? ==> r == Some(FallbackDescription)
  {
    match obj
    case JNull => None
    case JOther => Some(FallbackDescription)
    case JObject(fields) => Some(FirstTruthy(fields, DescriptionKeys).GetOr(FallbackDescription))
  }

  /** A string that does not parse is shown as it is, unless it is empty. */
  lemma UnparsedTextIsShown(raw: string, parse: string -> Option<Json>)
    requires parse(raw).None?
    ensures Describe(ParseDetails(Text(raw), parse)) == Some(if raw == "" then FallbackDescription else raw)
  {
    var f := map["info" := raw];
    assert !Truthy(f, "description") && !Truthy(f, "text");
    if raw != "" {
      assert Truthy(f, DescriptionKeys[1]);
    }
  }

  /** A non-empty `description` field always wins. */
  lemma DescriptionFieldWins(fields: map<string, string>)
    requires Truthy(fields, "description")
    ensures Describe(JObject(fields)) == Some(fields["description"])
  {
  }

  // ---------------------------------------------------------------------
  // Viewer state

  /** The text fields of the info panel that depend on the scene. */
  datatype InfoPanel = InfoPanel(location: string, dateCaptured: string, fileSize: string, numImages: string)

  /** The panel script's state together with the box registry it drives:
      the local `bboxVisible`, the page-wide `window._bboxVisible` (undefined
      until the script runs), `window._currentSceneId`, the header title,
      the info panel, and the annotation section. */
  datatype Viewer = Viewer(
    registry: Registry,
    bboxVisible: bool,
    globalVisible: Option<bool>,
    currentSceneId: Option<string>,
    sceneTitle: string,
    info: InfoPanel,
    panelOpen: bool,
    annotationVisible: bool,
    annotationTitle: string,
    annotationText: string)

  /** The scene-specific info panel text, for the scenes that have it. */
  function SceneInfo(sceneId: string): Option<InfoPanel> {
    if sceneId == "apartment" then Some(InfoPanel("Cape Town", "11 September, 2025", "17 MB", "754"))
    else if sceneId == "office" then Some(InfoPanel("Garden Route", "11 November, 2025", "15 MB", "695"))
    else None
  }

  function SceneTitle(sceneId: string): Option<string> {
    if sceneId == "apartment" then Some("Apartment")
    else if sceneId == "office" then Some("Office")
    else None
  }

  /** The scene ids the page knows. */
  predicate KnownScene(sceneId: string) {
    sceneId == "apartment" || sceneId == "office"
  }

  /** `updateInfoPanelForScene`: an unknown scene returns before touching the
      panel. */
  function UpdateInfoPanel(v: Viewer, sceneId: string): (r: Viewer)
    ensures !KnownScene(sceneId) ==> r == v
    ensures KnownScene(sceneId) ==> r == v.(info := SceneInfo(sceneId).value)
  {
    match SceneInfo(sceneId)
    case None => v
    case Some(info) => v.(info := info)
  }

  /** A click on the bounding-box toggle: the local flag flips, the page-wide
      flag copies it, and the boxes are shown when it turned on and hidden
      when it turned off. */
  function ToggleBoxes(v: Viewer): (r: Viewer)
    ensures r.bboxVisible == !v.bboxVisible && r.globalVisible == Some(r.bboxVisible)
    ensures r.bboxVisible ==> r.registry == ShowAll(v.registry)
    ensures !r.bboxVisible ==> r.registry == HideAll(v.registry)
    ensures r.(registry := v.registry, bboxVisible := v.bboxVisible, globalVisible := v.globalVisible) == v
  {
    var visible := !v.bboxVisible;
    v.(bboxVisible := visible,
       globalVisible := Some(visible),
       registry := if visible then ShowAll(v.registry) else HideAll(v.registry))
  }

  /** Turning the boxes off and on again ends with every box shown and the
      flags as they were. */
  lemma ToggleTwiceShowsAll(v: Viewer)
    requires v.bboxVisible && v.globalVisible == Some(true)
    ensures ToggleBoxes(ToggleBoxes(v)) == v.(registry := ShowAll(v.registry))
  {
    ShowAllAfterHideAll(v.registry);
  }

  /** `hideAnnotationInPanel`: the annotation section is hidden, and all
      boxes are shown unless the page-wide flag is exactly `false`. */
  function HideAnnotation(v: Viewer): (r: Viewer)
    ensures !r.annotationVisible
    ensures v.globalVisible == Some(false) ==> r == v.(annotationVisible := false)
    ensures v.globalVisible != Some(false) ==> r == v.(annotationVisible := false, registry := ShowAll(v.registry))
  {
    var hidden := v.(annotationVisible := false);
    if v.globalVisible != Some(false) then hidden.(registry := ShowAll(v.registry)) else hidden
  }

  /** Boxes the user hid stay hidden when the annotation closes. */
  lemma HiddenBoxesStayHidden(v: Viewer)
    requires v.bboxVisible
    ensures var r := HideAnnotation(ToggleBoxes(v));
      forall i :: 0 <= i < |r.registry.entities| ==> !r.registry.entities[i].enabled
  {
  }

  /** `showAnnotationInPanel`: the heading is set first; a details value of
      `null` then throws, leaving the rest as it was; otherwise the
      description is shown and the panel opens. */
  function ShowAnnotation(v: Viewer, title: Option<string>, details: Details, parse: string -> Option<Json>): (r: Viewer)
    ensures r.annotationTitle == AnnotationTitle(title) && r.registry == v.registry
    ensures ParseDetails(details, parse).JNull? ==> r == v.(annotationTitle := AnnotationTitle(title))
    ensures !ParseDetails(details, parse).JNull? ==>
      r.annotationVisible && r.panelOpen && r.annotationText != ""
    ensures !ParseDetails(details, parse).JNull? ==>
      r == v.(annotationTitle := AnnotationTitle(title),
              annotationText := Describe(ParseDetails(details, parse)).value,
              annotationVisible := true, panelOpen := true)
  {
    var titled := v.(annotationTitle := AnnotationTitle(title));
    match Describe(ParseDetails(details, parse))
    case None => titled
    case Some(text) => titled.(annotationText := text, annotationVisible := true, panelOpen := true)
  }

  /** `onBoundingBoxClick`: the box is focused and its label and details are
      shown in the panel. */
  function SelectBox(v: Viewer, box: BoxData, detailsHtml: string, parse: string -> Option<Json>): (r: Viewer)
    ensures r.registry == SetActive(v.registry, Some(box.id))
    ensures r.annotationTitle == AnnotationTitle(Some(box.boxLabel))
    ensures r.annotationVisible && r.panelOpen
    ensures detailsHtml != "" ==> r.annotationText == detailsHtml
  {
    ShowAnnotation(v.(registry := SetActive(v.registry, Some(box.id))),
                   Some(box.boxLabel), Given(JObject(map["description" := detailsHtml])), parse)
  }

  /** What the engine side of a scene switch finds: the page's app, the splat
      entity, and the scene's asset. */
  datatype Engine = Engine(appFound: bool, splatFound: bool, assetFound: bool)

  /** `updatePlayCanvasScene`, reduced to its effect on this state: the
      current scene id is recorded first; an unknown scene, a missing splat
      entity or a missing asset end it there; otherwise the scene's boxes
      are requested once the asset is ready. */
  function UpdateScene(v: Viewer, sceneId: string, engine: Engine): (r: Viewer)
    ensures r.currentSceneId == Some(sceneId)
    ensures !KnownScene(sceneId) || !engine.splatFound || !engine.assetFound ==>
      r == v.(currentSceneId := Some(sceneId))
    ensures KnownScene(sceneId) && engine.splatFound && engine.assetFound ==>
      r.registry == LoadForScene(v.registry, sceneId)
  {
    var recorded := v.(currentSceneId := Some(sceneId));
    if !KnownScene(sceneId) || !engine.splatFound || !engine.assetFound then recorded
    else recorded.(registry := LoadForScene(v.registry, sceneId))
  }

  /** `loadScene`: the title and info panel follow a known scene, the
      annotation is closed, visibility is reset to true and every box is
      shown, and then the engine switches scene if the app is there. */
  function SwitchScene(v: Viewer, sceneId: string, engine: Engine): (r: Viewer)
    ensures r.bboxVisible && r.globalVisible == Some(true) && !r.annotationVisible
    ensures !KnownScene(sceneId) ==> r.sceneTitle == v.sceneTitle && r.info == v.info
    ensures KnownScene(sceneId) ==> r.sceneTitle == SceneTitle(sceneId).value && r.info == SceneInfo(sceneId).value
    ensures !(engine.appFound && KnownScene(sceneId) && engine.splatFound && engine.assetFound) ==>
      r.registry == ShowAll(v.registry)
    ensures engine.appFound && KnownScene(sceneId) && engine.splatFound && engine.assetFound ==>
      r.registry == LoadForScene(ShowAll(v.registry), sceneId)
  {
    var titled := match SceneTitle(sceneId)
      case Some(t) => v.(sceneTitle := t)
      case None => v;
    var closed := HideAnnotation(UpdateInfoPanel(titled, sceneId));
    var reset := closed.(bboxVisible := true, globalVisible := Some(true), registry := ShowAll(closed.registry));
    if engine.appFound then UpdateScene(reset, sceneId, engine) else reset
  }

  /** Switching to a scene without box data only closes the annotation,
      resets visibility, shows every box and records the id: the registry
      keeps its entities and nothing is loaded. */
  lemma UnknownSceneKeepsBoxes(v: Viewer, sceneId: string, engine: Engine)
    requires !KnownScene(sceneId)
    ensures var r := SwitchScene(v, sceneId, engine);
      && r.registry == ShowAll(v.registry)
      && r.(currentSceneId := v.currentSceneId) ==
         v.(bboxVisible := true, globalVisible := Some(true), annotationVisible := false, registry := ShowAll(v.registry))
  {
    ShowAllAfterSetActive(v.registry, None);
  }

  /** Switching to a known scene with the engine ready clears the old boxes
      and requests the scene's document. */
  lemma KnownSceneRequestsBoxes(v: Viewer, sceneId: string, engine: Engine)
    requires KnownScene(sceneId) && engine.appFound && engine.splatFound && engine.assetFound
    ensures var r := SwitchScene(v, sceneId, engine);
      && r.registry.entities == []
      && r.registry.jsonUrl == SceneUrl(sceneId).value
      && r.registry.requested == v.registry.requested + 1
      && r.currentSceneId == Some(sceneId)
  {
  }

  /** A box document arriving for a load request. Responses to superseded
      requests are dropped (see `CompleteLatestLoad`). */
  function LoadArrived(v: Viewer, ticket: nat, outcome: FetchOutcome, place: Vec3 -> Vec3): (r: Viewer)
    ensures ticket != v.registry.requested ==> r == v
    ensures ticket == v.registry.requested && outcome.Fetched? ==>
      |r.registry.entities| == |outcome.boxes|
    ensures r.(registry := v.registry) == v
  {
    v.(registry := CompleteLatestLoad(v.registry, ticket, outcome, place))
  }
}
