/**
 * The hero-element search of lighthouse-core/gather/gatherers/hero-elements.js: over the
 * document's elements, the largest visible h1, h2 and img, and the largest element with
 * a non-repeating background image, each with its rounded client rect; an h2 stands in
 * for a missing h1. Elements are abstract records of what the page reports.
 */
module HeroElements {
  import opened Wrappers
  import opened JsNumber
  import opened JsString

  datatype HeroName = H1 | H2 | Img | BackgroundImage {
    function Name(): string {
      match this
      case H1 => "h1"
      case H2 => "h2"
      case Img => "img"
      case BackgroundImage => "backgroundImage"
    }
  }

  /** `getBoundingClientRect()`. */
  datatype Rect = Rect(left: real, top: real, width: real, height: real)

  /** What the search reads of an element: its tag, rect, `offsetHeight` and computed style. */
  datatype Element = Element(tagName: string, rect: Rect, offsetHeight: real,
                             backgroundImage: string, backgroundRepeat: string)

  /** `document.documentElement.clientWidth` and `clientHeight`. */
  datatype Viewport = Viewport(width: real, height: real)

  datatype HeroElement = HeroElement(name: HeroName, x: int, y: int, width: int, height: int)

  /** `isInViewport`: not entirely above, below, left of or right of the viewport. */
  predicate IsInViewport(rect: Rect, viewport: Viewport) {
    !(rect.top + rect.height <= 0.0 || rect.top >= viewport.height ||
      rect.left + rect.width <= 0.0 || rect.left >= viewport.width)
  }

  function MaxReal(a: real, b: real): real { if a < b then b else a }
  function MinReal(a: real, b: real): real { if a < b then a else b }

  /** The length of the overlap of [start, start + length) with [0, size). */
  function Overlap(start: real, length: real, size: real): real {
    MinReal(start + length, size) - MaxReal(start, 0.0)
  }

  /** For a rect with positive sides, in the viewport exactly when it overlaps it along both axes. */
  lemma InViewportOverlaps(rect: Rect, viewport: Viewport)
    requires rect.width > 0.0 && rect.height > 0.0 && viewport.width > 0.0 && viewport.height > 0.0
    ensures IsInViewport(rect, viewport) <==>
      Overlap(rect.left, rect.width, viewport.width) > 0.0 && Overlap(rect.top, rect.height, viewport.height) > 0.0
  {
  }

  /** One side of `visibleElementArea`: clipped at the start, or else at the end. */
  function ClippedSpan(start: real, length: real, size: real): real {
    if start < 0.0 then length + start
    else if size < start + length then size - start
    else length
  }

  /**
   * When the span overflows at most one edge of the viewport, the clipped span is its
   * overlap with the viewport.
   */
  lemma ClippedSpanIsOverlap(start: real, length: real, size: real)
    requires length >= 0.0
    requires start < 0.0 ==> start + length <= size
    requires 0.0 <= start < size || start + length > 0.0
    ensures ClippedSpan(start, length, size) == Overlap(start, length, size)
  {
  }

  /**
   * A span that overflows both edges is clipped only at the start, so it comes out wider
   * than the viewport.
   */
  lemma ClippedSpanBothEdges(start: real, length: real, size: real)
    requires start < 0.0 && start + length > size
    ensures ClippedSpan(start, length, size) > size
    ensures ClippedSpan(start, length, size) > Overlap(start, length, size)
  {
  }

  /** `visibleElementArea(rect)`. */
  function VisibleElementArea(rect: Rect, viewport: Viewport): real {
    ClippedSpan(rect.left, rect.width, viewport.width) * ClippedSpan(rect.top, rect.height, viewport.height)
  }

  /** A rect inside the viewport keeps its whole area. */
  lemma VisibleAreaInside(rect: Rect, viewport: Viewport)
    requires 0.0 <= rect.left && rect.left + rect.width <= viewport.width
    requires 0.0 <= rect.top && rect.top + rect.height <= viewport.height
    ensures VisibleElementArea(rect, viewport) == rect.width * rect.height
  {
  }

  /** A rect with non-negative sides in the viewport has a non-negative visible area. */
  lemma VisibleAreaNonNegative(rect: Rect, viewport: Viewport)
    requires rect.width >= 0.0 && rect.height >= 0.0 && IsInViewport(rect, viewport)
    ensures VisibleElementArea(rect, viewport) >= 0.0
  {
    var w := ClippedSpan(rect.left, rect.width, viewport.width);
    var h := ClippedSpan(rect.top, rect.height, viewport.height);
    assert w >= 0.0 && h >= 0.0;
  }

  /** `isVisibleElement(el) && isInViewport(rect)`: the element takes part in the search. */
  predicate Considered(el: Element, viewport: Viewport) {
    el.offsetHeight > 0.0 && IsInViewport(el.rect, viewport)
  }

  /** The hero slot an element's tag competes for, if any. */
  function TagSlot(tagName: string): (r: Option<HeroName>)
    ensures r.Some? ==> r.value != BackgroundImage
  {
    if tagName == "H1" then Some(H1)
    else if tagName == "H2" then Some(H2)
    else if tagName == "IMG" then Some(Img)
    else None
  }

  /** `hasValidBackgroundImage(el)`. */
  predicate HasValidBackgroundImage(el: Element) {
    el.backgroundImage != "" &&
    IndexOf(ToLower(el.backgroundImage), "url(") == 0 &&
    el.backgroundRepeat != "repeat" && el.backgroundRepeat != "repeat-x" && el.backgroundRepeat != "repeat-y"
  }

  /** The check is a case-insensitive `url(` prefix and a non-repeating background. */
  lemma ValidBackgroundImage(el: Element)
    ensures HasValidBackgroundImage(el) <==>
      StartsWith(ToLower(el.backgroundImage), "url(") &&
      el.backgroundRepeat !in ["repeat", "repeat-x", "repeat-y"]
  {
    IndexOfZeroIsPrefix(ToLower(el.backgroundImage), "url(");
  }

  /** The element competes for `name`: it is considered, and has that tag or a valid background. */
  predicate Candidate(el: Element, viewport: Viewport, name: HeroName) {
    Considered(el, viewport) &&
    (if name == BackgroundImage then HasValidBackgroundImage(el) else TagSlot(el.tagName) == Some(name))
  }

  /** The record `setHeroElement` stores: the rect's left, top, width and height, rounded. */
  function HeroFrom(name: HeroName, rect: Rect): (h: HeroElement)
    ensures h.name == name
    ensures rect.left - 0.5 < h.x as real <= rect.left + 0.5 && rect.top - 0.5 < h.y as real <= rect.top + 0.5
    ensures rect.width - 0.5 < h.width as real <= rect.width + 0.5
    ensures rect.height - 0.5 < h.height as real <= rect.height + 0.5
  {
    HeroElement(name, Round(rect.left), Round(rect.top), Round(rect.width), Round(rect.height))
  }

  /**
   * The search state: `heroElements`, `elementAreas` and the order in which keys were
   * first added to `heroElements` (the order `Object.values` lists them in).
   */
  datatype State = State(heroes: map<HeroName, HeroElement>, areas: map<HeroName, real>, order: seq<HeroName>)

  predicate Distinct(s: seq<HeroName>) {
    forall i, j :: 0 <= i < j < |s| ==> s[i] != s[j]
  }

  ghost predicate WellFormed(s: State) {
    (forall n: HeroName :: n in s.areas) &&
    (forall n :: n in s.heroes ==> s.heroes[n].name == n) &&
    Distinct(s.order) && (forall n :: n in s.heroes <==> n in s.order)
  }

  function Initial(): State {
    State(map[], map[H1 := 0.0, H2 := 0.0, Img := 0.0, BackgroundImage := 0.0], [])
  }

  lemma InitialWellFormed()
    ensures WellFormed(Initial())
  {
    forall n: HeroName ensures n in Initial().areas {
      match n
      case H1 =>
      case H2 =>
      case Img =>
      case BackgroundImage =>
    }
  }

  /** `setHeroElement(name, rect, area)`. */
  function SetHero(s: State, name: HeroName, rect: Rect, area: real): State {
    State(s.heroes[name := HeroFrom(name, rect)], s.areas[name := area],
          if name in s.heroes then s.order else s.order + [name])
  }

  /** Whether storing an area of `area` replaces the one stored under `name`. */
  function Replaces(name: HeroName, stored: real, area: real): bool {
    if name == BackgroundImage then stored == 0.0 || area > stored else stored < area
  }

  /** One iteration of the loop over `allDocumentElements`. */
  function Step(s: State, el: Element, viewport: Viewport): State
    requires forall n: HeroName :: n in s.areas
  {
    var area := VisibleElementArea(el.rect, viewport);
    if !Considered(el, viewport) then s
    else
      var s1 := match TagSlot(el.tagName)
        case Some(name) => if s.areas[name] < area then SetHero(s, name, el.rect, area) else s
        case None => s;
      if HasValidBackgroundImage(el) && (s1.areas[BackgroundImage] == 0.0 || area > s1.areas[BackgroundImage])
      then SetHero(s1, BackgroundImage, el.rect, area)
      else s1
  }

  /** What one step does to the slot `name`: store the element, or leave the slot alone. */
  lemma StepSlot(prev: State, el: Element, viewport: Viewport, name: HeroName)
    requires forall n: HeroName :: n in prev.areas
    ensures var s := Step(prev, el, viewport);
      var area := VisibleElementArea(el.rect, viewport);
      if Candidate(el, viewport, name) && Replaces(name, prev.areas[name], area)
      then (name in s.heroes && s.heroes[name] == HeroFrom(name, el.rect) && name in s.areas && s.areas[name] == area)
      else (name in s.areas && s.areas[name] == prev.areas[name] && (name in s.heroes <==> name in prev.heroes) &&
        (name in prev.heroes ==> s.heroes[name] == prev.heroes[name]))
  {
    var area := VisibleElementArea(el.rect, viewport);
    if Considered(el, viewport) {
      var slot := TagSlot(el.tagName);
      var s1 := if slot.Some? && prev.areas[slot.value] < area then SetHero(prev, slot.value, el.rect, area) else prev;
      if name == BackgroundImage {
        assert s1.areas[name] == prev.areas[name];
        assert name in s1.heroes <==> name in prev.heroes;
        assert name in prev.heroes ==> s1.heroes[name] == prev.heroes[name];
      } else {
        BackgroundStepKeeps(s1, el, area, name);
      }
    }
  }

  /** The background part of a step: it leaves the tag slots alone. */
  lemma BackgroundStepKeeps(s1: State, el: Element, area: real, name: HeroName)
    requires forall n: HeroName :: n in s1.areas
    requires name != BackgroundImage
    ensures var s := if HasValidBackgroundImage(el) && (s1.areas[BackgroundImage] == 0.0 || area > s1.areas[BackgroundImage])
        then SetHero(s1, BackgroundImage, el.rect, area) else s1;
      name in s.areas && s.areas[name] == s1.areas[name] && (name in s.heroes <==> name in s1.heroes) &&
      (name in s1.heroes ==> s.heroes[name] == s1.heroes[name])
  {
  }

  /** The state after the loop has visited `es`. */
  ghost function Scan(es: seq<Element>, viewport: Viewport): (s: State)
    ensures WellFormed(s)
  {
    if |es| == 0 then
      InitialWellFormed();
      Initial()
    else
      var prev := Scan(es[..|es| - 1], viewport);
      StepWellFormed(prev, es[|es| - 1], viewport);
      Step(prev, es[|es| - 1], viewport)
  }

  lemma SetHeroWellFormed(s: State, name: HeroName, rect: Rect, area: real)
    requires WellFormed(s)
    ensures WellFormed(SetHero(s, name, rect, area))
  {
    if name !in s.heroes {
      var o := s.order + [name];
      forall i, j | 0 <= i < j < |o| ensures o[i] != o[j] {
        if j == |o| - 1 {
          assert o[i] in s.order;
        }
      }
    }
  }

  lemma StepWellFormed(s: State, el: Element, viewport: Viewport)
    requires WellFormed(s)
    ensures WellFormed(Step(s, el, viewport))
  {
    var area := VisibleElementArea(el.rect, viewport);
    if Considered(el, viewport) {
      var slot := TagSlot(el.tagName);
      if slot.Some? && s.areas[slot.value] < area {
        SetHeroWellFormed(s, slot.value, el.rect, area);
        SetHeroWellFormed(SetHero(s, slot.value, el.rect, area), BackgroundImage, el.rect, area);
      } else {
        SetHeroWellFormed(s, BackgroundImage, el.rect, area);
      }
    }
  }

  /** The order with `n` removed. */
  function Without(order: seq<HeroName>, n: HeroName): (r: seq<HeroName>)
    ensures forall m :: m in r <==> m in order && m != n
    ensures Distinct(order) ==> Distinct(r)
  {
    if |order| == 0 then []
    else if order[0] == n then Without(order[1..], n)
    else
      var rest := Without(order[1..], n);
      assert Distinct(order) ==> order[0] !in rest;
      [order[0]] + rest
  }

  /** The step after the loop: an h2 becomes the h1 when there is none, then h2 is deleted. */
  function Promote(s: State): State {
    if H2 in s.heroes then
      var s1 := if H1 !in s.heroes
        then State(s.heroes[H1 := s.heroes[H2].(name := H1)], s.areas, s.order + [H1])
        else s;
      State(s1.heroes - {H2}, s1.areas, Without(s1.order, H2))
    else s
  }

  /** `Object.values(heroElements)`. */
  function Values(s: State): seq<HeroElement>
    requires forall n :: n in s.order ==> n in s.heroes
  {
    seq(|s.order|, i requires 0 <= i < |s.order| => s.heroes[s.order[i]])
  }

  /** What the search returns for the elements `es`. */
  ghost function Heroes(es: seq<Element>, viewport: Viewport): seq<HeroElement> {
    var s := Promote(Scan(es, viewport));
    WellFormedPromote(Scan(es, viewport));
    Values(s)
  }

  lemma WellFormedPromote(s: State)
    requires WellFormed(s)
    ensures WellFormed(Promote(s)) && H2 !in Promote(s).heroes
  {
    if H2 in s.heroes && H1 !in s.heroes {
      assert H1 !in s.order;
      var o := s.order + [H1];
      forall i, j | 0 <= i < j < |o| ensures o[i] != o[j] {
        if j == |o| - 1 {
          assert o[i] in s.order;
        }
      }
    }
  }

  /** `findHeroElements(allDocumentElements)`. */
  method FindHeroElements(allDocumentElements: seq<Element>, viewport: Viewport) returns (result: seq<HeroElement>)
    ensures result == Heroes(allDocumentElements, viewport)
  {
    var heroElements: map<HeroName, HeroElement> := map[];
    var elementAreas := map[H1 := 0.0, H2 := 0.0, Img := 0.0, BackgroundImage := 0.0];
    var keys: seq<HeroName> := [];
    var i := 0;
    while i < |allDocumentElements|
      invariant 0 <= i <= |allDocumentElements|
      invariant State(heroElements, elementAreas, keys) == Scan(allDocumentElements[..i], viewport)
    {
      var element := allDocumentElements[i];
      var elementRect := element.rect;
      var elementArea := VisibleElementArea(elementRect, viewport);
      if element.offsetHeight > 0.0 && IsInViewport(elementRect, viewport) {
        var slot := TagSlot(element.tagName);
        if slot.Some? && elementAreas[slot.value] < elementArea {
          var name := slot.value;
          if name !in heroElements {
            keys := keys + [name];
          }
          heroElements := heroElements[name := HeroFrom(name, elementRect)];
          elementAreas := elementAreas[name := elementArea];
        }
        if HasValidBackgroundImage(element) &&
           (elementAreas[BackgroundImage] == 0.0 || elementArea > elementAreas[BackgroundImage]) {
          if BackgroundImage !in heroElements {
            keys := keys + [BackgroundImage];
          }
          heroElements := heroElements[BackgroundImage := HeroFrom(BackgroundImage, elementRect)];
          elementAreas := elementAreas[BackgroundImage := elementArea];
        }
      }
      assert allDocumentElements[..i + 1][..i] == allDocumentElements[..i];
      i := i + 1;
    }
    assert allDocumentElements[..i] == allDocumentElements;
    ghost var scanned := State(heroElements, elementAreas, keys);
    if H2 in heroElements {
      if H1 !in heroElements {
        heroElements := heroElements[H1 := heroElements[H2].(name := H1)];
        keys := keys + [H1];
      }
      heroElements := heroElements - {H2};
      keys := Without(keys, H2);
    }
    assert State(heroElements, elementAreas, keys) == Promote(scanned);
    WellFormedPromote(scanned);
    result := Values(State(heroElements, elementAreas, keys));
  }

  /**
   * The element stored under `name` is the first candidate with the strictly largest
   * area: every candidate's area is at most its area, and every earlier one's is smaller.
   */
  ghost predicate FirstLargest(es: seq<Element>, viewport: Viewport, name: HeroName, i: int) {
    0 <= i < |es| && Candidate(es[i], viewport, name) &&
    VisibleElementArea(es[i].rect, viewport) > 0.0 &&
    (forall j :: 0 <= j < |es| && Candidate(es[j], viewport, name) ==>
      VisibleElementArea(es[j].rect, viewport) <= VisibleElementArea(es[i].rect, viewport)) &&
    (forall j :: 0 <= j < i && Candidate(es[j], viewport, name) ==>
      VisibleElementArea(es[j].rect, viewport) < VisibleElementArea(es[i].rect, viewport))
  }

  /** No candidate for `name` among `es` has a positive area. */
  ghost predicate NoPositiveCandidate(es: seq<Element>, viewport: Viewport, name: HeroName) {
    forall j :: 0 <= j < |es| && Candidate(es[j], viewport, name) ==> VisibleElementArea(es[j].rect, viewport) <= 0.0
  }

  /** The background slot only sees positive areas (otherwise areas of 0 can be replaced). */
  ghost predicate PositiveBackgrounds(es: seq<Element>, viewport: Viewport) {
    forall j :: 0 <= j < |es| && Candidate(es[j], viewport, BackgroundImage) ==> VisibleElementArea(es[j].rect, viewport) > 0.0
  }

  /** What the scan keeps for one slot, stated over the prefix it has visited. */
  ghost predicate SlotInvariant(es: seq<Element>, viewport: Viewport, name: HeroName, s: State)
    requires WellFormed(s)
  {
    s.areas[name] >= 0.0 &&
    (name !in s.heroes ==> s.areas[name] == 0.0 && NoPositiveCandidate(es, viewport, name)) &&
    (name in s.heroes ==> exists i :: (FirstLargest(es, viewport, name, i) &&
       s.areas[name] == VisibleElementArea(es[i].rect, viewport) && s.heroes[name] == HeroFrom(name, es[i].rect)))
  }

  /** The loop keeps the slot invariant for `name`. */
  lemma {:induction false} ScanSlot(es: seq<Element>, viewport: Viewport, name: HeroName)
    requires name == BackgroundImage ==> PositiveBackgrounds(es, viewport)
    ensures SlotInvariant(es, viewport, name, Scan(es, viewport))
  {
    if |es| > 0 {
      var init := es[..|es| - 1];
      var el := es[|es| - 1];
      assert es == init + [el];
      assert name == BackgroundImage ==> PositiveBackgrounds(init, viewport) by {
        if name == BackgroundImage {
          forall j | 0 <= j < |init| && Candidate(init[j], viewport, name)
            ensures VisibleElementArea(init[j].rect, viewport) > 0.0 {
            assert init[j] == es[j];
          }
        }
      }
      ScanSlot(init, viewport, name);
      var prev := Scan(init, viewport);
      var area := VisibleElementArea(el.rect, viewport);
      if Candidate(el, viewport, name) && Replaces(name, prev.areas[name], area) {
        StepReplaces(init, el, viewport, name, prev);
      } else {
        StepKeeps(init, el, viewport, name, prev);
      }
    }
  }

  /** A step that does not store under `name` keeps what was stored there. */
  lemma StepKeeps(init: seq<Element>, el: Element, viewport: Viewport, name: HeroName, prev: State)
    requires WellFormed(prev) && SlotInvariant(init, viewport, name, prev)
    requires !(Candidate(el, viewport, name) && Replaces(name, prev.areas[name], VisibleElementArea(el.rect, viewport)))
    requires name == BackgroundImage ==> PositiveBackgrounds(init + [el], viewport)
    ensures WellFormed(Step(prev, el, viewport))
    ensures SlotInvariant(init + [el], viewport, name, Step(prev, el, viewport))
  {
    StepWellFormed(prev, el, viewport);
    StepSlot(prev, el, viewport, name);
    KeptSlot(init, el, viewport, name, prev, Step(prev, el, viewport));
  }

  lemma KeptSlot(init: seq<Element>, el: Element, viewport: Viewport, name: HeroName, prev: State, s: State)
    requires WellFormed(prev) && SlotInvariant(init, viewport, name, prev) && WellFormed(s)
    requires !(Candidate(el, viewport, name) && Replaces(name, prev.areas[name], VisibleElementArea(el.rect, viewport)))
    requires name == BackgroundImage ==> PositiveBackgrounds(init + [el], viewport)
    requires s.areas[name] == prev.areas[name] && (name in s.heroes <==> name in prev.heroes)
    requires name in prev.heroes ==> s.heroes[name] == prev.heroes[name]
    ensures SlotInvariant(init + [el], viewport, name, s)
  {
    var es := init + [el];
    if name in prev.heroes {
      var k :| FirstLargest(init, viewport, name, k) &&
        prev.areas[name] == VisibleElementArea(init[k].rect, viewport) && prev.heroes[name] == HeroFrom(name, init[k].rect);
      assert es[k] == init[k];
      assert FirstLargest(es, viewport, name, k) by {
        forall j | 0 <= j < |es| && Candidate(es[j], viewport, name)
          ensures VisibleElementArea(es[j].rect, viewport) <= VisibleElementArea(es[k].rect, viewport) {
          if j < |init| {
            assert es[j] == init[j];
          }
        }
        forall j | 0 <= j < k && Candidate(es[j], viewport, name)
          ensures VisibleElementArea(es[j].rect, viewport) < VisibleElementArea(es[k].rect, viewport) {
          assert es[j] == init[j];
        }
      }
    } else {
      forall j | 0 <= j < |es| && Candidate(es[j], viewport, name)
        ensures VisibleElementArea(es[j].rect, viewport) <= 0.0 {
        if j < |init| {
          assert es[j] == init[j];
        }
      }
    }
  }

  /** A step that stores under `name` stores the first strictly largest candidate so far. */
  lemma StepReplaces(init: seq<Element>, el: Element, viewport: Viewport, name: HeroName, prev: State)
    requires WellFormed(prev) && SlotInvariant(init, viewport, name, prev)
    requires Candidate(el, viewport, name) && Replaces(name, prev.areas[name], VisibleElementArea(el.rect, viewport))
    requires name == BackgroundImage ==> PositiveBackgrounds(init + [el], viewport)
    ensures WellFormed(Step(prev, el, viewport))
    ensures SlotInvariant(init + [el], viewport, name, Step(prev, el, viewport))
  {
    StepWellFormed(prev, el, viewport);
    var es := init + [el];
    var s := Step(prev, el, viewport);
    var area := VisibleElementArea(el.rect, viewport);
    assert es[|es| - 1] == el;
    assert s.heroes[name] == HeroFrom(name, el.rect) && s.areas[name] == area;
    assert area > 0.0;
    forall j | 0 <= j < |es| && Candidate(es[j], viewport, name)
      ensures VisibleElementArea(es[j].rect, viewport) <= area {
      if j < |init| {
        assert es[j] == init[j];
        if name in prev.heroes {
          var k :| FirstLargest(init, viewport, name, k) &&
            prev.areas[name] == VisibleElementArea(init[k].rect, viewport);
        }
      }
    }
    forall j | 0 <= j < |es| - 1 && Candidate(es[j], viewport, name)
      ensures VisibleElementArea(es[j].rect, viewport) < area {
      assert es[j] == init[j];
      if name in prev.heroes {
        var k :| FirstLargest(init, viewport, name, k) &&
          prev.areas[name] == VisibleElementArea(init[k].rect, viewport);
      }
    }
    assert FirstLargest(es, viewport, name, |es| - 1);
  }

  /**
   * For h1, h2 and img (and for the background when every candidate area is positive; see
   * BackgroundHero for the general background rule),
   * the slot is filled exactly when some candidate has a positive area, and then holds the
   * rounded rect of the first candidate with the strictly largest area.
   */
  lemma LargestHero(es: seq<Element>, viewport: Viewport, name: HeroName)
    requires name == BackgroundImage ==> PositiveBackgrounds(es, viewport)
    ensures name in Scan(es, viewport).heroes <==> !NoPositiveCandidate(es, viewport, name)
    ensures name in Scan(es, viewport).heroes ==>
      exists i :: FirstLargest(es, viewport, name, i) && Scan(es, viewport).heroes[name] == HeroFrom(name, es[i].rect)
  {
    ScanSlot(es, viewport, name);
  }

  /** No element among `es` competes for `name`. */
  ghost predicate NoCandidate(es: seq<Element>, viewport: Viewport, name: HeroName) {
    forall j :: 0 <= j < |es| ==> !Candidate(es[j], viewport, name)
  }

  /** `es[i]` is the last element of `es` that competes for `name`. */
  ghost predicate LastCandidate(es: seq<Element>, viewport: Viewport, name: HeroName, i: int) {
    0 <= i < |es| && Candidate(es[i], viewport, name) &&
    forall j :: i < j < |es| ==> !Candidate(es[j], viewport, name)
  }

  /** `getBoundingClientRect` never reports a negative width or height. */
  ghost predicate DomRects(es: seq<Element>) {
    forall j :: 0 <= j < |es| ==> es[j].rect.width >= 0.0 && es[j].rect.height >= 0.0
  }

  /**
   * What the scan keeps in the background slot: filled once a candidate was seen; the
   * first strictly largest candidate once one had a positive area, and until then the
   * last candidate, whose stored area of 0 any later candidate replaces.
   */
  ghost predicate BackgroundInvariant(es: seq<Element>, viewport: Viewport, s: State)
    requires WellFormed(s)
  {
    var n := BackgroundImage;
    s.areas[n] >= 0.0 &&
    (n in s.heroes <==> !NoCandidate(es, viewport, n)) &&
    (NoPositiveCandidate(es, viewport, n) ==>
      s.areas[n] == 0.0 &&
      (n in s.heroes ==> exists i :: LastCandidate(es, viewport, n, i) && s.heroes[n] == HeroFrom(n, es[i].rect))) &&
    (!NoPositiveCandidate(es, viewport, n) ==>
      exists i :: (FirstLargest(es, viewport, n, i) &&
        s.areas[n] == VisibleElementArea(es[i].rect, viewport) && s.heroes[n] == HeroFrom(n, es[i].rect)))
  }

  /** The loop keeps the background invariant. */
  lemma {:induction false} ScanBackground(es: seq<Element>, viewport: Viewport)
    requires DomRects(es)
    ensures BackgroundInvariant(es, viewport, Scan(es, viewport))
  {
    if |es| == 0 {
      assert NoPositiveCandidate(es, viewport, BackgroundImage);
    } else {
      var init := es[..|es| - 1];
      var el := es[|es| - 1];
      assert es == init + [el];
      assert DomRects(init) by {
        forall j | 0 <= j < |init| ensures init[j].rect.width >= 0.0 && init[j].rect.height >= 0.0 {
          assert init[j] == es[j];
        }
      }
      ScanBackground(init, viewport);
      var prev := Scan(init, viewport);
      StepWellFormed(prev, el, viewport);
      StepSlot(prev, el, viewport, BackgroundImage);
      var area := VisibleElementArea(el.rect, viewport);
      if Candidate(el, viewport, BackgroundImage) {
        VisibleAreaNonNegative(el.rect, viewport);
        if Replaces(BackgroundImage, prev.areas[BackgroundImage], area) {
          BackgroundStored(init, el, viewport, prev, Step(prev, el, viewport));
        } else {
          BackgroundKeptCandidate(init, el, viewport, prev, Step(prev, el, viewport));
        }
      } else {
        BackgroundKeptOther(init, el, viewport, prev, Step(prev, el, viewport));
      }
    }
  }

  /** A candidate that replaces the stored background becomes the stored one. */
  lemma BackgroundStored(init: seq<Element>, el: Element, viewport: Viewport, prev: State, s: State)
    requires WellFormed(prev) && BackgroundInvariant(init, viewport, prev) && WellFormed(s)
    requires Candidate(el, viewport, BackgroundImage) && VisibleElementArea(el.rect, viewport) >= 0.0
    requires Replaces(BackgroundImage, prev.areas[BackgroundImage], VisibleElementArea(el.rect, viewport))
    requires BackgroundImage in s.heroes && s.heroes[BackgroundImage] == HeroFrom(BackgroundImage, el.rect)
    requires s.areas[BackgroundImage] == VisibleElementArea(el.rect, viewport)
    ensures BackgroundInvariant(init + [el], viewport, s)
  {
    var n := BackgroundImage;
    var es := init + [el];
    var area := VisibleElementArea(el.rect, viewport);
    assert es[|init|] == el;
    assert forall j :: 0 <= j < |init| ==> es[j] == init[j];
    assert !NoCandidate(es, viewport, n);
    if NoPositiveCandidate(init, viewport, n) {
      if area == 0.0 {
        assert LastCandidate(es, viewport, n, |init|);
      } else {
        assert FirstLargest(es, viewport, n, |init|);
      }
    } else {
      var k :| FirstLargest(init, viewport, n, k) && prev.areas[n] == VisibleElementArea(init[k].rect, viewport);
      assert area > prev.areas[n];
      assert FirstLargest(es, viewport, n, |init|);
    }
  }

  /** A candidate that does not replace the stored background leaves it. */
  lemma BackgroundKeptCandidate(init: seq<Element>, el: Element, viewport: Viewport, prev: State, s: State)
    requires WellFormed(prev) && BackgroundInvariant(init, viewport, prev) && WellFormed(s)
    requires Candidate(el, viewport, BackgroundImage) && VisibleElementArea(el.rect, viewport) >= 0.0
    requires !Replaces(BackgroundImage, prev.areas[BackgroundImage], VisibleElementArea(el.rect, viewport))
    requires s.areas[BackgroundImage] == prev.areas[BackgroundImage]
    requires BackgroundImage in s.heroes <==> BackgroundImage in prev.heroes
    requires BackgroundImage in prev.heroes ==> s.heroes[BackgroundImage] == prev.heroes[BackgroundImage]
    ensures BackgroundInvariant(init + [el], viewport, s)
  {
    var n := BackgroundImage;
    var es := init + [el];
    assert !NoPositiveCandidate(init, viewport, n);
    var k :| FirstLargest(init, viewport, n, k) && prev.areas[n] == VisibleElementArea(init[k].rect, viewport) &&
      prev.heroes[n] == HeroFrom(n, init[k].rect);
    ExtendLargest(init, el, viewport, n, k);
    assert es[k] == init[k] && es[|init|] == el;
  }

  /** An element that does not compete for the background leaves the slot and its meaning. */
  lemma BackgroundKeptOther(init: seq<Element>, el: Element, viewport: Viewport, prev: State, s: State)
    requires WellFormed(prev) && BackgroundInvariant(init, viewport, prev) && WellFormed(s)
    requires !Candidate(el, viewport, BackgroundImage)
    requires s.areas[BackgroundImage] == prev.areas[BackgroundImage]
    requires BackgroundImage in s.heroes <==> BackgroundImage in prev.heroes
    requires BackgroundImage in prev.heroes ==> s.heroes[BackgroundImage] == prev.heroes[BackgroundImage]
    ensures BackgroundInvariant(init + [el], viewport, s)
  {
    var n := BackgroundImage;
    var es := init + [el];
    ExtendNoCandidate(init, el, viewport, n);
    if NoPositiveCandidate(init, viewport, n) {
      if n in prev.heroes {
        var i :| LastCandidate(init, viewport, n, i) && prev.heroes[n] == HeroFrom(n, init[i].rect);
        ExtendLast(init, el, viewport, n, i);
        assert es[i] == init[i];
      }
    } else {
      var k :| FirstLargest(init, viewport, n, k) && prev.areas[n] == VisibleElementArea(init[k].rect, viewport) &&
        prev.heroes[n] == HeroFrom(n, init[k].rect);
      ExtendLargest(init, el, viewport, n, k);
      assert es[k] == init[k];
    }
  }

  /** An element that does not compete for `name` changes neither of the two emptiness tests. */
  lemma ExtendNoCandidate(init: seq<Element>, el: Element, viewport: Viewport, name: HeroName)
    requires !Candidate(el, viewport, name)
    ensures NoCandidate(init + [el], viewport, name) <==> NoCandidate(init, viewport, name)
    ensures NoPositiveCandidate(init + [el], viewport, name) <==> NoPositiveCandidate(init, viewport, name)
  {
    var es := init + [el];
    assert es[|init|] == el;
    assert forall j :: 0 <= j < |init| ==> es[j] == init[j];
  }

  /** An element that does not compete for `name` leaves the last candidate the last. */
  lemma ExtendLast(init: seq<Element>, el: Element, viewport: Viewport, name: HeroName, i: int)
    requires !Candidate(el, viewport, name) && LastCandidate(init, viewport, name, i)
    ensures LastCandidate(init + [el], viewport, name, i)
  {
    var es := init + [el];
    assert es[|init|] == el;
    assert forall j :: 0 <= j < |init| ==> es[j] == init[j];
  }

  /** An element that is no larger leaves the first strictly largest candidate in place. */
  lemma ExtendLargest(init: seq<Element>, el: Element, viewport: Viewport, name: HeroName, k: int)
    requires FirstLargest(init, viewport, name, k)
    requires Candidate(el, viewport, name) ==> VisibleElementArea(el.rect, viewport) <= VisibleElementArea(init[k].rect, viewport)
    ensures FirstLargest(init + [el], viewport, name, k)
  {
    var es := init + [el];
    assert es[|init|] == el;
    assert forall j :: 0 <= j < |init| ==> es[j] == init[j];
  }

  /**
   * The background slot, whose stored area of 0 counts as empty: it is filled exactly when
   * some element competes for it; it holds the first candidate of strictly largest area
   * when some candidate has a positive area, and otherwise the last candidate.
   */
  lemma BackgroundHero(es: seq<Element>, viewport: Viewport)
    requires DomRects(es)
    ensures var s := Scan(es, viewport);
      BackgroundImage in s.heroes <==> exists j :: 0 <= j < |es| && Candidate(es[j], viewport, BackgroundImage)
    ensures var s := Scan(es, viewport);
      !NoPositiveCandidate(es, viewport, BackgroundImage) ==>
      exists i :: FirstLargest(es, viewport, BackgroundImage, i) && s.heroes[BackgroundImage] == HeroFrom(BackgroundImage, es[i].rect)
    ensures var s := Scan(es, viewport);
      NoPositiveCandidate(es, viewport, BackgroundImage) && BackgroundImage in s.heroes ==>
      exists i :: LastCandidate(es, viewport, BackgroundImage, i) && s.heroes[BackgroundImage] == HeroFrom(BackgroundImage, es[i].rect)
  {
    ScanBackground(es, viewport);
  }

  /** `Object.values` of a well-formed state: one entry per stored name, each its own record. */
  lemma ValuesShape(p: State)
    requires WellFormed(p)
    ensures var out := Values(p);
      (forall i, j :: 0 <= i < j < |out| ==> out[i].name != out[j].name) &&
      (forall n :: n in p.heroes <==> exists i :: 0 <= i < |out| && out[i].name == n) &&
      (forall i :: 0 <= i < |out| ==> out[i] == p.heroes[out[i].name])
  {
    var out := Values(p);
    forall n | n in p.heroes ensures exists i :: 0 <= i < |out| && out[i].name == n {
      var i :| 0 <= i < |p.order| && p.order[i] == n;
      assert out[i].name == n;
    }
  }

  /** The h2 step: h2 is gone, h1 is the h1 or else the renamed h2, img and background stay. */
  lemma PromoteSlots(s: State)
    requires WellFormed(s)
    ensures WellFormed(Promote(s)) && H2 !in Promote(s).heroes
    ensures H1 in Promote(s).heroes <==> H1 in s.heroes || H2 in s.heroes
    ensures H1 in Promote(s).heroes ==>
      Promote(s).heroes[H1] == if H1 in s.heroes then s.heroes[H1] else s.heroes[H2].(name := H1)
    ensures forall n :: n != H1 && n != H2 ==>
      (n in Promote(s).heroes <==> n in s.heroes) && (n in s.heroes ==> Promote(s).heroes[n] == s.heroes[n])
  {
    WellFormedPromote(s);
  }

  /**
   * The list the search returns holds no h2 and at most one entry per name; it has an h1
   * exactly when some h1 or h2 candidate had a positive area, and that entry is the h2's
   * rect renamed to h1 when no h1 had.
   */
  lemma HeroesShape(es: seq<Element>, viewport: Viewport)
    ensures var out := Heroes(es, viewport);
      (forall i :: 0 <= i < |out| ==> out[i].name != H2) &&
      (forall i, j :: 0 <= i < j < |out| ==> out[i].name != out[j].name)
    ensures var out := Heroes(es, viewport);
      (exists i :: 0 <= i < |out| && out[i].name == H1) <==>
      !NoPositiveCandidate(es, viewport, H1) || !NoPositiveCandidate(es, viewport, H2)
    ensures var out := Heroes(es, viewport);
      NoPositiveCandidate(es, viewport, H1) ==>
      forall i :: 0 <= i < |out| && out[i].name == H1 ==>
        exists k :: FirstLargest(es, viewport, H2, k) && out[i] == HeroFrom(H1, es[k].rect)
  {
    var s := Scan(es, viewport);
    PromoteSlots(s);
    ValuesShape(Promote(s));
    LargestHero(es, viewport, H1);
    LargestHero(es, viewport, H2);
    var out := Heroes(es, viewport);
    if NoPositiveCandidate(es, viewport, H1) {
      forall i | 0 <= i < |out| && out[i].name == H1
        ensures exists k :: FirstLargest(es, viewport, H2, k) && out[i] == HeroFrom(H1, es[k].rect) {
        var k :| FirstLargest(es, viewport, H2, k) && s.heroes[H2] == HeroFrom(H2, es[k].rect);
        assert out[i] == HeroFrom(H1, es[k].rect);
      }
    }
  }
}
