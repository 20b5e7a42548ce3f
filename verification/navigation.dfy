/** The scroll-driven rules of the site's main script: which section is
    current and which navigation links are active, and the two scroll
    thresholds for the back-to-top button and the navbar shadow. */
module Navigation {
  import opened Optional

  /** A `.section` or `.hero` element, in document order: its `id` attribute
      (absent attributes read as `null`) and its `offsetTop`. */
  datatype Section = Section(id: Option<string>, offsetTop: int)

  /** A section counts as reached this many pixels before its top. */
  const SectionLead: int := 200

  predicate Reached(s: Section, pageYOffset: int) {
    pageYOffset >= s.offsetTop - SectionLead
  }

  /** The index of the last reached section. */
  function LastReached(sections: seq<Section>, pageYOffset: int): (r: Option<nat>)
    ensures r.Some? ==> r.value < |sections| && Reached(sections[r.value], pageYOffset)
    ensures r.Some? ==> forall j :: r.value < j < |sections| ==> !Reached(sections[j], pageYOffset)
    ensures r.None? ==> forall j :: 0 <= j < |sections| ==> !Reached(sections[j], pageYOffset)
  {
    if sections == [] then None
    else if Reached(sections[|sections| - 1], pageYOffset) then Some(|sections| - 1)
    else LastReached(sections[..|sections| - 1], pageYOffset)
  }

  /** Scrolling further down never moves the highlight to an earlier
      section, whatever the order of the offsets. */
  lemma {:induction false} LastReachedMonotone(sections: seq<Section>, y1: int, y2: int)
    requires y1 <= y2
    ensures LastReached(sections, y1).Some? ==>
      LastReached(sections, y2).Some? && LastReached(sections, y1).value <= LastReached(sections, y2).value
  {
    var a := LastReached(sections, y1);
    if a.Some? {
      assert Reached(sections[a.value], y2);
    }
  }

  /** The string `'#' + current` builds: `null` converts to `"null"`. */
  function AsText(v: Option<string>): string {
    match v
    case Some(s) => s
    case None => "null"
  }

  /** `highlightActiveSection`. The current section id starts as `''` and is
      overwritten by every reached section in document order, so it is the
      id of the last reached section, or `''` when none is reached. Each
      link is then active exactly when its `href` is `'#' + current`. */
  method HighlightActiveSection(sections: seq<Section>, hrefs: seq<Option<string>>, pageYOffset: int)
    returns (current: Option<string>, active: seq<bool>)
    ensures LastReached(sections, pageYOffset).None? ==> current == Some("")
    ensures LastReached(sections, pageYOffset).Some? ==> current == sections[LastReached(sections, pageYOffset).value].id
    ensures |active| == |hrefs|
    ensures forall i :: 0 <= i < |hrefs| ==> (active[i] <==> hrefs[i] == Some("#" + AsText(current)))
  {
    current := Some("");
    var k := 0;
    while k < |sections|
      invariant 0 <= k <= |sections|
      invariant LastReached(sections[..k], pageYOffset).None? ==> current == Some("")
      invariant LastReached(sections[..k], pageYOffset).Some? ==>
        current == sections[LastReached(sections[..k], pageYOffset).value].id
    {
      assert sections[..k + 1][..k] == sections[..k];
      if Reached(sections[k], pageYOffset) {
        current := sections[k].id;
      }
      k := k + 1;
    }
    assert sections[..k] == sections;
    var target := "#" + AsText(current);
    active := [];
    var i := 0;
    while i < |hrefs|
      invariant 0 <= i <= |hrefs| && |active| == i
      invariant forall j :: 0 <= j < i ==> (active[j] <==> hrefs[j] == Some(target))
    {
      active := active + [hrefs[i] == Some(target)];
      i := i + 1;
    }
  }

  /** With distinct `href`s at most one link is active. */
  lemma AtMostOneActive(hrefs: seq<Option<string>>, active: seq<bool>, target: string)
    requires forall i, j :: 0 <= i < j < |hrefs| ==> hrefs[i] != hrefs[j]
    requires |active| == |hrefs|
    requires forall i :: 0 <= i < |hrefs| ==> (active[i] <==> hrefs[i] == Some(target))
    ensures forall i, j :: 0 <= i < |active| && 0 <= j < |active| && active[i] && active[j] ==> i == j
  {
  }

  // ---------------------------------------------------------------------
  // Scroll effects

  const ScrollButtonThreshold: int := 300
  const NavbarShadowThreshold: int := 100

  datatype Shadow = LightShadow | HeavyShadow

  datatype ScrollView = ScrollView(buttonVisible: bool, shadow: Shadow)

  /** The scroll handler: the back-to-top button shows past 300 pixels, the
      heavy navbar shadow past 100. */
  function OnScroll(pageYOffset: int): (v: ScrollView)
    ensures v.buttonVisible ==> v.shadow == HeavyShadow
  {
    ScrollView(pageYOffset > ScrollButtonThreshold,
               if pageYOffset > NavbarShadowThreshold then HeavyShadow else LightShadow)
  }

  /** The thresholds are strict, and between them the shadow is heavy while
      the button is still hidden. */
  lemma ScrollThresholds(pageYOffset: int)
    ensures OnScroll(pageYOffset).buttonVisible <==> pageYOffset > 300
    ensures OnScroll(pageYOffset).shadow == HeavyShadow <==> pageYOffset > 100
    ensures !OnScroll(300).buttonVisible && OnScroll(301).buttonVisible
    ensures OnScroll(100).shadow == LightShadow && OnScroll(101).shadow == HeavyShadow
  {
  }

  /** Scrolling further down never hides the button or lightens the shadow. */
  lemma ScrollEffectsMonotone(y1: int, y2: int)
    requires y1 <= y2
    ensures OnScroll(y1).buttonVisible ==> OnScroll(y2).buttonVisible
    ensures OnScroll(y1).shadow == HeavyShadow ==> OnScroll(y2).shadow == HeavyShadow
  {
  }
}
