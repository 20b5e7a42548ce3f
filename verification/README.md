# Bounding-box viewer core, in Dafny

A model of the decision logic of a small website with a 3D scene viewer. The viewer draws
object-detection boxes over a gaussian-splat scene. The model covers three scripts:

- `rad-det/assets/scripts/bounding-box-loader.mjs`. It keeps a registry of box entities. Each
  entity is named `bbox-<id>` and has its own `enabled` flag and a collision volume with a
  `render.enabled` flag. The script handles focus mode (`setActiveBox`), show/hide all, clearing,
  loading a scene's boxes, the slab-method ray/box test, and the click and hover rules built on it.
- `rad-det/assets/scripts/panel.js`. It drives the info panel: the objects list, the annotation
  title and description, the bounding-box visibility toggle, closing an annotation, and switching
  scenes.
- `js/main.js`. It holds the site's scroll rules: which section is current, which nav links are
  active, and the 300 px and 100 px thresholds.

Files, one module each:

| file | module | contents |
|---|---|---|
| `optional.dfy` | `Optional` | `Option`, for values that may be `null`/`undefined` |
| `jstext.dfy` | `JsText` | `trim`, single-character upper-casing, `replace` with a string pattern, the default sort order of strings |
| `labelorder.dfy` | `LabelOrder` | `[...new Set(labels)].sort()` and why its result is determined by the set of labels |
| `geometry.dfy` | `Geometry` | vectors, numbers extended with ±`Infinity`, `rayBoxIntersect` and its geometric meaning |
| `registry.dfy` | `BoxRegistry` | box data and entities, naming, focus mode, show/hide/clear, loading |
| `picking.dfy` | `Picking` | the mousedown pick loop, the hover test, the two mouse handlers |
| `panel.dfy` | `Panel` | the panel's decision rules over a `Viewer` state that holds the registry |
| `navigation.dfy` | `Navigation` | section highlighting and scroll effects |

Numbers are exact reals, not floating point. `-Infinity` and `Infinity` are datatype values
(`Geometry.Ext`), because the slab test starts its interval from them. If all three direction
components are below the parallel threshold and the origin is inside the box, the test reports a
hit at `Infinity`. The click rule never picks such a hit, because it only takes a distance strictly
below the running `Infinity`.

`loadBoundingBoxes` clears the registry when the load is requested
(`rad-det/assets/scripts/bounding-box-loader.mjs:454`), so a failed fetch leaves it empty
(`BoxRegistry.LoadReplaces`). The registry's `requested` count is not part of the program's loader.
It is a request ticket added by the model. Only the corrected completion from "## Findings"
(`BoxRegistry.CompleteLatestLoad`) reads it.

## Model

| member | source | states |
|---|---|---|
| `Geometry.RayBoxIntersect` | rad-det/assets/scripts/bounding-box-loader.mjs:624-672 | The answer is a miss, a non-negative distance, or `Infinity`. It is never a negative distance or `-Infinity`. |
| `Geometry.SlabParameters` | rad-det/assets/scripts/bounding-box-loader.mjs:642-645 | On a non-parallel axis, `t` lies between `min(t1,t2)` and `max(t1,t2)` exactly when the point at `t` lies between the two slab planes. This holds for both signs of the direction. |
| `Geometry.SlabStepMeaning` | rad-det/assets/scripts/bounding-box-loader.mjs:638-646 | One axis step keeps exactly the parameters that axis admits. A parallel ray whose origin is outside the slab is rejected, and then no parameter is admitted. |
| `Geometry.SlabsMeaning` | rad-det/assets/scripts/bounding-box-loader.mjs:634-666 | After the X, Y and Z steps, `[tmin, tmax]` holds exactly the parameters all three axes admit. A rejection means there are none. |
| `Geometry.Decide` | rad-det/assets/scripts/bounding-box-loader.mjs:668-671 | The final choice never returns a negative distance. |
| `Geometry.DecideMeaning` | rad-det/assets/scripts/bounding-box-loader.mjs:668-671 | A miss means no parameter ≥ 0 is in the interval. `tmin` (the least such parameter) is returned when 0 is outside the interval, and `tmax` (the greatest) when 0 is inside. |
| `Geometry.RayBoxMissMeaning` | rad-det/assets/scripts/bounding-box-loader.mjs:630-671 | The test reports a miss exactly when no point of the ray at or ahead of its origin is in the box as the slab rule counts it. A near-parallel axis counts as in the box whenever the origin is in that axis's slab. |
| `Geometry.RayBoxDistanceMeaning` | rad-det/assets/scripts/bounding-box-loader.mjs:630-671 | A finite answer is a hit as the slab rule counts it. With the origin outside, it is the nearest such hit, the entry distance. With the origin inside, it is the farthest, the exit distance. |
| `Geometry.RayBoxInfiniteMeaning` | rad-det/assets/scripts/bounding-box-loader.mjs:630-671 | An `Infinity` answer means that, as the slab rule counts it, every point of the ray from its origin on is in the box. This happens only when all three axes are parallel or near-parallel. |
| `Geometry.HitsAtIffAhead` | rad-det/assets/scripts/bounding-box-loader.mjs:640-668 | After the three slabs, a ray parameter is a hit by the slab rule exactly when it is ahead of the origin and inside the narrowed interval. |
| `Geometry.HitsAtIsInBox` | rad-det/assets/scripts/bounding-box-loader.mjs:630-668 | The slab rule's hit is the geometric one when the box has non-negative size and no direction component is in the band `0 < \|d\| < 0.0001`: the point is at or ahead of the origin and between the two faces on every axis. |
| `Geometry.RayBoxMissInBox` | rad-det/assets/scripts/bounding-box-loader.mjs:630-671 | Under those conditions, a miss means exactly that no point of the ray at or ahead of its origin lies in the box. |
| `Geometry.RayBoxDistanceInBox` | rad-det/assets/scripts/bounding-box-loader.mjs:630-671 | Under those conditions, a finite answer is a point of the box. From outside, it is the nearest such point, where the ray enters. From inside, it is the farthest, where it leaves. |
| `Geometry.RayBoxExamples` | rad-det/assets/scripts/bounding-box-loader.mjs:630-671 | Worked rays against a unit box: near face 4.5, far face 0.5 from the centre, a parallel miss beside the box, a miss pointing away, and a stationary ray inside the box at `Infinity`. |
| `Geometry.NearParallelFalseHit` | rad-det/assets/scripts/bounding-box-loader.mjs:637-639 | The 0.0001 parallel test can report a hit that is not in the box. A ray with `x` component 0.00009, starting just inside the face `x == 0.5`, gets distance 4.5 against the unit box. No point of it at or ahead of its origin lies in the box. |
| `Picking.Candidates` | rad-det/assets/scripts/bounding-box-loader.mjs:139-148 | An entity takes part only when it is shown and its collision volume renders. Its hit distance is then the one the ray test gives. |
| `Picking.PickClosest` | rad-det/assets/scripts/bounding-box-loader.mjs:139-155 | The pick has the least hit distance among the candidates. Any earlier candidate is strictly farther, so the first wins a tie. Nothing is picked when every hit is at `Infinity`. |
| `Picking.Hovering` | rad-det/assets/scripts/bounding-box-loader.mjs:195-209 | The pointer shows exactly when some shown entity is hit. The collision flag plays no part. |
| `Picking.OnMouseMove` | rad-det/assets/scripts/bounding-box-loader.mjs:169-215 | With no entities or no camera the cursor is left unchanged. Otherwise it is the pointer exactly when the hover test succeeds. |
| `Picking.OnMouseDown` | rad-det/assets/scripts/bounding-box-loader.mjs:89-158 | These presses change nothing: another button, a press on the interface, no entities, no camera, or a far point with `x == 0`. Otherwise a finite candidate hit always leads to a selection. The selected box is a candidate with the least hit distance, and every earlier candidate is strictly farther, so the first wins a tie. It becomes the focus. |
| `Picking.FocusedRegistryHasNoClickTargets` | rad-det/assets/scripts/bounding-box-loader.mjs:263-283 | After focusing a non-empty id, no entity can be clicked. |
| `Picking.FocusedBoxStillHovers` | rad-det/assets/scripts/bounding-box-loader.mjs:197-209 | The focused box still shows the pointer when the ray hits it. |
| `BoxRegistry.BoxIdOfEntityName` | rad-det/assets/scripts/bounding-box-loader.mjs:267 | Removing the first `bbox-` from `bbox-<id>` gives back `id`. |
| `JsText.ReplaceFirst` | rad-det/assets/scripts/bounding-box-loader.mjs:267 | `replace` with a string pattern and a replacement without `$` either leaves the string as it is or replaces exactly one occurrence, changing the length by the difference between the replacement and the pattern. |
| `JsText.ReplaceFirstMeaning` | rad-det/assets/scripts/bounding-box-loader.mjs:267 | For a replacement without `$`: with no occurrence the string is unchanged; otherwise only the earliest occurrence is replaced. |
| `BoxRegistry.EntityNameInjective` | rad-det/assets/scripts/bounding-box-loader.mjs:492 | Different ids give different entity names. |
| `BoxRegistry.SwapYZ` | rad-det/assets/scripts/bounding-box-loader.mjs:488-489 | The size becomes `[x, z, y]`. |
| `BoxRegistry.SwapYZInvolution` | rad-det/assets/scripts/bounding-box-loader.mjs:488-489 | Swapping twice gives back the original size. |
| `BoxRegistry.CreateEntity` | rad-det/assets/scripts/bounding-box-loader.mjs:482-561 | A new entity's name decodes to its box id. It is enabled, its collision volume renders, and it keeps its box data. It is placed where the parent transform puts the box position, with the swapped size as its scale. |
| `BoxRegistry.CreateEntities` | rad-det/assets/scripts/bounding-box-loader.mjs:475-480 | One entity per box, in document order. |
| `BoxRegistry.SetActive` | rad-det/assets/scripts/bounding-box-loader.mjs:263-283 | For `null`, `undefined` or `''`, every entity and collision volume is switched on. For any other id, an entity stays enabled exactly when its decoded name equals the id. That entity's collision volume is switched off, and every other entity keeps its collision flag. Only the two flags and `activeBoxId` change. |
| `BoxRegistry.ShowAll` | rad-det/assets/scripts/bounding-box-loader.mjs:288-290 | Every entity is enabled and every collision volume renders. The focus is cleared. The URL, the request count and every other entity field are unchanged. |
| `BoxRegistry.HideAll` | rad-det/assets/scripts/bounding-box-loader.mjs:295-299 | Every entity is disabled. Collision flags, focus, URL and list are unchanged. |
| `BoxRegistry.Clear` | rad-det/assets/scripts/bounding-box-loader.mjs:610-615 | The registry is empty. The focus is not reset. |
| `BoxRegistry.ShowAllAfterSetActive` | rad-det/assets/scripts/bounding-box-loader.mjs:263-290 | Showing everything ends in the same state whatever focus was set before. |
| `BoxRegistry.ShowAllAfterHideAll` | rad-det/assets/scripts/bounding-box-loader.mjs:288-299 | Showing everything undoes hiding everything. |
| `BoxRegistry.FocusThenShowAllRestores` | rad-det/assets/scripts/bounding-box-loader.mjs:263-290 | Start from a registry where everything is shown. Focusing an id and then showing all gives back that same registry. |
| `BoxRegistry.FocusShowsCreatedEntity` | rad-det/assets/scripts/bounding-box-loader.mjs:266-281 | Focus the id of the box an entity was created from. That entity stays enabled and its collision volume is switched off. |
| `BoxRegistry.BeginLoad` | rad-det/assets/scripts/bounding-box-loader.mjs:452-459 | Requesting a load empties the registry before anything is fetched. |
| `BoxRegistry.CompleteLoad` | rad-det/assets/scripts/bounding-box-loader.mjs:466-480 | A response appends one entity per box, in order, after the existing ones. A failed fetch changes nothing. |
| `BoxRegistry.LoadReplaces` | rad-det/assets/scripts/bounding-box-loader.mjs:452-480 | A load run to completion leaves exactly one entity per loaded box, in document order, each decoding to its box id. Nothing of the previous scene survives. A failed fetch leaves the registry empty. |
| `BoxRegistry.OverlappingLoadsAccumulate` | rad-det/assets/scripts/bounding-box-loader.mjs:452-480 | Two overlapping loads whose responses both arrive leave the boxes of both documents. |
| `BoxRegistry.CompleteLatestLoad` | rad-det/assets/scripts/bounding-box-loader.mjs:452-480 | The corrected completion from "## Findings", not the program's: a response to a superseded request is dropped, and the latest one replaces the entities. The program appends every response. |
| `BoxRegistry.LatestLoadAgreesWhenAlone` | rad-det/assets/scripts/bounding-box-loader.mjs:452-480 | For a load that no other load overtakes, the checked completion equals the completion as written. |
| `BoxRegistry.OverlappingLatestLoadsReplace` | rad-det/assets/scripts/bounding-box-loader.mjs:452-480 | With the check, two overlapping loads leave only the second document's boxes, in either arrival order. |
| `BoxRegistry.LoadForScene` | rad-det/assets/scripts/bounding-box-loader.mjs:58-72 | `apartment` and `office` set their fixed URL and start a load. Any other scene id clears the registry. Either way the registry is empty afterwards. |
| `LabelOrder.Dedup` | rad-det/assets/scripts/panel.js:738 | `new Set(labels)` has no repeats and holds exactly the labels. |
| `LabelOrder.SortSortsDistinct` | rad-det/assets/scripts/panel.js:738 | Sorting distinct labels gives a strictly increasing permutation of them. |
| `LabelOrder.SortedIsUnique` | rad-det/assets/scripts/panel.js:738 | Two strictly sorted label lists with the same elements are equal. |
| `LabelOrder.UniqueSortedLabels` | rad-det/assets/scripts/panel.js:738 | The objects list is strictly sorted and has no repeats. A label is in it exactly when some box has that label. |
| `LabelOrder.UniqueSortedLabelsCanonical` | rad-det/assets/scripts/panel.js:738 | The list depends only on which labels occur, not on their order or count. |
| `JsText.Trim` | rad-det/assets/scripts/panel.js:779-780 | `trim` drops exactly the leading and trailing ECMAScript white space. |
| `JsText.TrimOfTrimmed` | rad-det/assets/scripts/panel.js:779-780 | A string with no white space at either end is left unchanged by `trim`. |
| `JsText.Capitalize` | rad-det/assets/scripts/panel.js:745 | The first character is upper-cased and the rest is unchanged. The empty string stays empty. |
| `Panel.ObjectRows` | rad-det/assets/scripts/panel.js:733-758 | One row per distinct label, in sorted order, each capitalised. A failed fetch gives the single row `No objects detected`. |
| `Panel.ObjectRowsCoverLabels` | rad-det/assets/scripts/panel.js:738-748 | Every label gets a row, every row comes from a label, and there are no more rows than boxes. |
| `Panel.CapitalizedRowsMayRepeat` | rad-det/assets/scripts/panel.js:738-745 | `apple` and `Apple` are different labels, so both become the row `Apple`. |
| `Panel.AnnotationTitle` | rad-det/assets/scripts/panel.js:778-783 | A missing or blank title gives `Selected Object`. Otherwise the heading is the trimmed title, first character upper-cased. The heading is never empty. |
| `Panel.AnnotationTitleIdempotent` | rad-det/assets/scripts/panel.js:778-783 | Feeding a heading back in as a title gives the same heading. |
| `Panel.FirstTruthy` | rad-det/assets/scripts/panel.js:794 | The chain of `or`s gives the value of the first key that is present and non-empty, and nothing only when no key is. |
| `Panel.ParseDetails` | rad-det/assets/scripts/panel.js:786-791 | A non-string details value is used as it is. A string is parsed, and one that does not parse becomes `{info: details}`. The result is `null` only for a given `null` or a string that parses to `null`. |
| `Panel.Describe` | rad-det/assets/scripts/panel.js:786-795 | A `null` or `undefined` details value throws. Otherwise the shown description is never empty. A number, boolean, string or array gives the fallback text. |
| `Panel.UnparsedTextIsShown` | rad-det/assets/scripts/panel.js:786-794 | A string that fails to parse is wrapped as `{info: details}` and shown as it is. If it is empty, the fallback text is shown. |
| `Panel.DescriptionFieldWins` | rad-det/assets/scripts/panel.js:794 | A non-empty `description` is shown, whatever `info` and `text` hold. |
| `Panel.UpdateInfoPanel` | rad-det/assets/scripts/panel.js:685-719 | An unknown scene id leaves the panel unchanged. A known one sets that scene's fixed texts. |
| `Panel.ToggleBoxes` | rad-det/assets/scripts/panel.js:404-431 | The flag flips and the page-wide flag copies it. Turning on shows all, turning off hides all. Nothing else changes. |
| `Panel.ToggleTwiceShowsAll` | rad-det/assets/scripts/panel.js:408-429 | Turning boxes off and on again restores the flags and shows every box. |
| `Panel.HideAnnotation` | rad-det/assets/scripts/panel.js:812-824 | The annotation section is hidden. All boxes are shown unless the page-wide flag is exactly `false`. |
| `Panel.HiddenBoxesStayHidden` | rad-det/assets/scripts/panel.js:818-823 | Once the user has hidden the boxes, closing the annotation keeps every box hidden. |
| `Panel.ShowAnnotation` | rad-det/assets/scripts/panel.js:768-801 | The heading is always set. A `null` or `undefined` details value, including details not passed at all, stops there. Otherwise the text shown is the description rule applied to the parsed details, the panel opens, and nothing else changes. |
| `Panel.SelectBox` | rad-det/assets/scripts/bounding-box-loader.mjs:218-239 | A clicked box is focused. Its label becomes the heading and its details become the description. |
| `Panel.UpdateScene` | rad-det/assets/scripts/panel.js:478-541 | The scene id is recorded first. An unknown scene, a missing splat entity or a missing asset changes nothing else. Otherwise the scene's boxes are requested. |
| `Panel.SwitchScene` | rad-det/assets/scripts/panel.js:314-369 | A switch always resets visibility to true and closes the annotation. The title and info panel change only for a known scene. Unless the app, a known scene, the splat entity and the asset are all there, every box ends up shown. With all four, the boxes are cleared and the scene's document is requested. |
| `Panel.UnknownSceneKeepsBoxes` | rad-det/assets/scripts/panel.js:514-518 | Switching to an unknown scene only resets visibility, shows every box, closes the annotation and records the id. No entity is lost and nothing is loaded. |
| `Panel.KnownSceneRequestsBoxes` | rad-det/assets/scripts/panel.js:633-637 | Switching to a known scene with the engine ready empties the registry. It also requests the scene's URL. |
| `Panel.LoadArrived` | rad-det/assets/scripts/bounding-box-loader.mjs:466-469 | Uses the corrected completion from "## Findings", not the program's: only the response to the latest request changes the viewer, leaving one entity per box. The program appends every response. |
| `Navigation.LastReached` | js/main.js:59-68 | The index of the last section with `offsetTop - 200 <= pageYOffset`. Nothing when no section qualifies. |
| `Navigation.LastReachedMonotone` | js/main.js:59-68 | Scrolling further down never moves the current section to an earlier one. |
| `Navigation.HighlightActiveSection` | js/main.js:50-79 | The current id is that of the last reached section, or `''` when none is reached. A link is active exactly when its `href` equals `'#' + current`. |
| `Navigation.AtMostOneActive` | js/main.js:71-78 | With distinct `href`s, at most one link is active. |
| `Navigation.OnScroll` | js/main.js:91-105 | Whenever the back-to-top button shows, the heavy navbar shadow is on. |
| `Navigation.ScrollThresholds` | js/main.js:93-104 | The button shows exactly when `pageYOffset > 300`. The heavy shadow applies exactly when `pageYOffset > 100`. Both bounds are strict. |
| `Navigation.ScrollEffectsMonotone` | js/main.js:93-104 | Scrolling further down never hides the button or lightens the shadow. |

## Left out

- `moveCameraToBox` (bounding-box-loader.mjs:305-443) is not modelled. It is trigonometry over floats plus engine world transforms.
- Engine calls are not modelled: layer creation, entity/material/wireframe construction, Euler composition, `screenToWorld` and vector normalisation. Instead:
  - a box's world position comes from a `place` function parameter;
  - a press supplies its camera position, far-plane point and normalised direction.
- `fetch` and JSON decoding are inputs: a load's result is a `FetchOutcome`, and the objects list's result is an `ObjectsFetch`. The delays between a scene switch and the load are not modelled (asset readiness, 300 ms timers, animation frames).
- Timers are not modelled: the loading-progress intervals, camera-movement polling, the `_boundingBoxClicked` flag, and `debounce`/`throttle`.
- DOM wiring is not modelled: listeners, icons, titles of buttons, fullscreen, modals, and the reset button's camera tables. The interface-click filter is one boolean of the press.
- The per-scene enabling of annotation entities (panel.js:526-534) and the HTML built for a clicked box (`toFixed` formatting) are not modelled. The description is an input string.
- `fetchData` and `postData` in main.js are not modelled. They are examples of network I/O.
- The `if (window.showAllBoundingBoxes)` guards are not modelled: the loader's page-wide hooks are assumed installed. Lookup tables are keyed by the two scene ids only; inherited object keys such as `constructor` are not modelled.
- Geometry.RayBoxIntersect: numbers are exact reals. Floating-point rounding, `NaN` and infinite coordinates are not modelled.
- Geometry.RayBoxMissMeaning, Geometry.RayBoxDistanceMeaning, Geometry.RayBoxInfiniteMeaning, Geometry.HitsAtIffAhead: "in the box" means in the box as the slab rule counts it (`Geometry.HitsAt`). An axis whose direction component is nonzero but below 0.0001 in size counts as parallel. On such an axis, every parameter is admitted as long as the origin is in that axis's slab, although the ray drifts across the slab. So the program can report a hit that is outside the box, miss a box the ray crosses, or report `Infinity` for a slow ray that leaves the box. `Geometry.NearParallelFalseHit` exhibits the first case. The geometric statements `Geometry.RayBoxMissInBox` and `Geometry.RayBoxDistanceInBox` hold only for rays clear of that band and boxes of non-negative size.
- JsText.UpperChar: only `a`–`z` are upper-cased. The full Unicode mapping of `toUpperCase` is not modelled, including characters that expand, such as `ß` to `SS`.
- LabelOrder.UniqueSortedLabels: characters are compared by code point. JavaScript compares UTF-16 code units, and the two orders differ only for characters outside the Basic Multilingual Plane.
- Panel.Describe: only string-valued fields of the details object are modelled. Other truthy or falsy values (`0`, objects) are not.
- Panel.AnnotationTitle: a title is a string or absent. Converting other values with `String(title)` is not modelled.
- Navigation.HighlightActiveSection: `pageYOffset` and `offsetTop` are integers. Fractional scroll offsets are not modelled.
- BoxRegistry.CompleteLoad: every box in the document is assumed well-formed, with string `id` and `label` and with `position`, `size`, `rotation` and `color` present. In the program, a box missing one of those throws inside `createBoundingBox` (bounding-box-loader.mjs:489, 498, 504, 513, 583) after the earlier boxes were appended, and the catch at :470 keeps that partial registry. A numeric `id` never equals the focus id at :268, so a click on it hides every box. Neither case is modelled.
- Panel.ObjectRows: labels are assumed to be strings. In the program, a non-string label throws at panel.js:745 after the earlier rows were appended, and the catch then adds `No objects detected` below them. This is not modelled.
- JsText.ReplaceFirst: the `$` substitution patterns of `String.prototype.replace` (`$$`, `$&`, `` $` ``, `$'`) are not modelled, so a replacement containing `$` is excluded. The one use, `setActiveBox`, replaces with the empty string.
- Picking.OnMouseMove: the `worldPos.x === undefined` guard is not modelled, because the engine always fills the point.

## Findings

| source | as written | input that shows it | evidently intended | confidence | as-written member | corrected member |
|---|---|---|---|---|---|---|
| rad-det/assets/scripts/bounding-box-loader.mjs:452-480 | The registry is cleared when a load is requested. Each response then appends its boxes, including a response to a request that was since superseded. | Switch to `apartment`, then to `office` before the first document arrives. Both responses arrive, and the registry holds both scenes' boxes. | Only the boxes of the most recently requested scene remain. The corrected completion compares tickets across loads only: a clear without a new load, such as a switch to a scene without box data, does not retire the ticket, so a response already in flight for the current ticket still fills the registry afterwards. | medium; not executed | `BoxRegistry.CompleteLoad`, shown by `BoxRegistry.OverlappingLoadsAccumulate` | `BoxRegistry.CompleteLatestLoad`, proved by `BoxRegistry.OverlappingLatestLoadsReplace` and used by `Panel.LoadArrived` |
