/**
 Scroll-position tracking (`initScrollToCenterAnimation` and its
 `checkPosition` in dist/js/main.js).

 An element's bounding rectangle and the viewport height are inputs read
 from the browser at each evaluation; they are exact reals here.
 */
module ScrollPosition {
  import opened Dom

  /** The vertical part of `getBoundingClientRect()`, relative to the viewport top. */
  datatype Rect = Rect(top: real, height: real, bottom: real)

  /** The reference line the element is compared against. */
  datatype Position = Bottom | Center

  /** A rectangle as the browser reports it: its bottom edge is its top
      edge plus its (non-negative) height. */
  predicate Consistent(r: Rect) {
    r.height >= 0.0 && r.bottom == r.top + r.height
  }

  /** `element.getAttribute('data-scroll-position') || options.position || 'center'`,
      of which only the value "bottom" selects the bottom-third rule. */
  function PositionOf(attribute: string, option: string): (p: Position)
    ensures p == Bottom <==> attribute == "bottom" || (attribute == "" && option == "bottom")
  {
    var chosen := if attribute != "" then attribute else if option != "" then option else "center";
    if chosen == "bottom" then Bottom else Center
  }

  /** `shouldBeVisible` in `checkPosition`. Under the bottom-third rule the
      top edge is at or above two thirds of the viewport and the bottom edge
      is below the viewport's top; under the centre rule the element's centre
      is at or above the viewport's, inclusive when they coincide. */
  function ShouldBeVisible(p: Position, r: Rect, viewportHeight: real): (v: bool)
    ensures p == Bottom ==> (v <==> 3.0 * r.top <= 2.0 * viewportHeight && r.bottom > 0.0)
    ensures p == Center ==> (v <==> 2.0 * r.top + r.height <= viewportHeight)
    ensures p == Center && r.top + r.height / 2.0 == viewportHeight / 2.0 ==> v
  {
    match p
    case Bottom => r.top <= viewportHeight * (2.0 / 3.0) && r.bottom > 0.0
    case Center => r.top + r.height / 2.0 <= viewportHeight / 2.0
  }

  /** For a consistent rectangle, the bottom rule holds exactly while the
      top edge lies in `(-height, 2H/3]`: it is off once the element is
      fully scrolled past the top, and off while its top is still below the
      two-thirds line. */
  lemma BottomWindow(r: Rect, h: real)
    requires Consistent(r)
    ensures ShouldBeVisible(Bottom, r, h) <==> -r.height < r.top <= h * (2.0 / 3.0)
    ensures r.bottom <= 0.0 ==> !ShouldBeVisible(Bottom, r, h)
    ensures r.top > h * (2.0 / 3.0) ==> !ShouldBeVisible(Bottom, r, h)
  {
  }

  /** Scrolling further down (the element moves up, keeping its height)
      never switches the centre rule off. */
  lemma CenterMonotone(r: Rect, s: Rect, h: real)
    requires s.top <= r.top && s.height == r.height
    requires ShouldBeVisible(Center, r, h)
    ensures ShouldBeVisible(Center, s, h)
  {
  }

  /** One element watched by `initScrollToCenterAnimation`. */
  class ScrollTracker {
    const position: Position
    const visibleClass: string
    var classes: set<string>

    /** `initScrollToCenterAnimation(element, visibleClass, options)` for an
        existing element: fix the reference line, then evaluate once. */
    constructor (classes: set<string>, attribute: string, option: string, visibleClass: string,
                 r: Rect, viewportHeight: real)
      ensures position == PositionOf(attribute, option) && this.visibleClass == visibleClass
      ensures visibleClass in this.classes <==> ShouldBeVisible(position, r, viewportHeight)
      ensures this.classes - {visibleClass} == classes - {visibleClass}
    {
      position := PositionOf(attribute, option);
      this.visibleClass := visibleClass;
      this.classes := classes;
      new;
      CheckPosition(r, viewportHeight);
    }

    /** `checkPosition()`: the visible class is present afterwards exactly
        when the rule holds for the current geometry; no other class changes. */
    method CheckPosition(r: Rect, viewportHeight: real)
      modifies this`classes
      ensures classes == Toggle(old(classes), visibleClass, ShouldBeVisible(position, r, viewportHeight))
      ensures visibleClass in classes <==> ShouldBeVisible(position, r, viewportHeight)
      ensures classes - {visibleClass} == old(classes) - {visibleClass}
    {
      var shouldBeVisible := ShouldBeVisible(position, r, viewportHeight);
      if shouldBeVisible {
        classes := classes + {visibleClass};
      } else {
        classes := classes - {visibleClass};
      }
    }
  }

  /** Re-evaluating with unchanged geometry changes nothing. */
  method CheckTwice(t: ScrollTracker, r: Rect, viewportHeight: real)
    modifies t
    ensures t.classes == Toggle(old(t.classes), t.visibleClass, ShouldBeVisible(t.position, r, viewportHeight))
  {
    t.CheckPosition(r, viewportHeight);
    ghost var once := t.classes;
    t.CheckPosition(r, viewportHeight);
    assert t.classes == once by {
      ToggleIdempotent(old(t.classes), t.visibleClass, ShouldBeVisible(t.position, r, viewportHeight));
    }
  }
}
