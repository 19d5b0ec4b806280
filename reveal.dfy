/** Scroll reveal and the page-transition overlay.

    An element is revealed by adding the class `appear` to it. Two observers do
    it, with the same callback: the animation system's, over the `.fade-in`
    elements, and the page script's, over the `.animate-in` elements, which also
    reveals at setup the ones already inside the viewport. Only
    `resetAnimations` takes `appear` away. The animation system also makes sure
    the page has one overlay element with id `pageTransition`.

    Intersection is not computed here: the browser's entries are the input of
    the callback, and an element's bounding box is the input of the setup check. */
module Reveal {
  import opened Dom

  const Appear := "appear"
  const FadeIn := "fade-in"
  const AnimateIn := "animate-in"
  const SlideInLeft := "slide-in-left"
  const SlideInRight := "slide-in-right"
  const SlideInBottom := "slide-in-bottom"
  const TransitionId := "pageTransition"
  const TransitionClass := "page-transition"

  function WithAppear(e: Element): Element {
    e.(classes := e.classes + {Appear})
  }

  /** The indices of the elements carrying class `c`. */
  function WithClass(es: seq<Element>, c: string): set<nat> {
    set k: nat | k < |es| && c in es[k].classes
  }

  // ---------------------------------------------------------------------------
  // The overlay

  /** The element `createPageTransition` creates. */
  function Overlay(): Element {
    Element(TransitionId, {TransitionClass})
  }

  /** `createPageTransition` on the document's elements: the elements afterwards,
      and the index of the element `this.pageTransition` refers to. */
  function EnsureTransition(es: seq<Element>): (r: (seq<Element>, nat))
    ensures r.1 < |r.0| && r.0[r.1].id == TransitionId
    ensures GetElementById(r.0, TransitionId) == Some(r.1)
    ensures CountId(r.0, TransitionId) == if CountId(es, TransitionId) == 0 then 1 else CountId(es, TransitionId)
    ensures CountId(es, TransitionId) == 0 ==> r.0 == [Overlay()] + es
    ensures CountId(es, TransitionId) > 0 ==> r.0 == es
  {
    match GetElementById(es, TransitionId)
    case None =>
      assert ([Overlay()] + es)[1..] == es;
      ([Overlay()] + es, 0)
    case Some(k) => (es, k)
  }

  /** A page with at most one overlay has exactly one afterwards, and running
      `createPageTransition` again changes nothing. */
  lemma TransitionSingleton(es: seq<Element>)
    requires CountId(es, TransitionId) <= 1
    ensures CountId(EnsureTransition(es).0, TransitionId) == 1
    ensures EnsureTransition(EnsureTransition(es).0) == EnsureTransition(es)
  {
  }

  // ---------------------------------------------------------------------------
  // The observer callback

  /** An `IntersectionObserverEntry`: the observed element and `isIntersecting`. */
  datatype Entry = Entry(target: nat, isIntersecting: bool)

  predicate EntriesFit(es: seq<Element>, entries: seq<Entry>) {
    forall j :: 0 <= j < |entries| ==> entries[j].target < |es|
  }

  /** Some entry reports element `k` intersecting. */
  predicate Intersects(entries: seq<Entry>, k: nat) {
    exists j :: 0 <= j < |entries| && entries[j] == Entry(k, true)
  }

  /** The callback's `entries.forEach`, entry by entry. */
  function Deliver(es: seq<Element>, entries: seq<Entry>): (r: seq<Element>)
    requires EntriesFit(es, entries)
    ensures |r| == |es|
    decreases |entries|
  {
    if entries == [] then es
    else
      var t := entries[0].target;
      Deliver(if entries[0].isIntersecting then es[t := WithAppear(es[t])] else es, entries[1..])
  }

  /** The callback gives `appear` to exactly the elements some entry reports
      intersecting, and changes nothing else. */
  lemma {:induction false} DeliverEffect(es: seq<Element>, entries: seq<Entry>, k: nat)
    requires EntriesFit(es, entries) && k < |es|
    ensures Deliver(es, entries)[k] == if Intersects(entries, k) then WithAppear(es[k]) else es[k]
    decreases |entries|
  {
    if entries != [] {
      var t := entries[0].target;
      var es' := if entries[0].isIntersecting then es[t := WithAppear(es[t])] else es;
      DeliverEffect(es', entries[1..], k);
      if Intersects(entries[1..], k) {
        var j :| 0 <= j < |entries[1..]| && entries[1..][j] == Entry(k, true);
        assert entries[j + 1] == Entry(k, true);
      }
      if Intersects(entries, k) && !Intersects(entries[1..], k) {
        var j :| 0 <= j < |entries| && entries[j] == Entry(k, true);
      }
    }
  }

  /** `appear` is never taken away by the callback, and is gained only by an
      element reported intersecting. */
  lemma AppearMonotone(es: seq<Element>, entries: seq<Entry>, k: nat)
    requires EntriesFit(es, entries) && k < |es|
    ensures Appear in es[k].classes ==> Appear in Deliver(es, entries)[k].classes
    ensures Appear in Deliver(es, entries)[k].classes <==> Appear in es[k].classes || Intersects(entries, k)
    ensures Deliver(es, entries)[k].classes - {Appear} == es[k].classes - {Appear}
    ensures Deliver(es, entries)[k].id == es[k].id
  {
    DeliverEffect(es, entries, k);
  }

  /** An `IntersectionObserver` with the reveal callback. */
  class RevealObserver {
    const doc: Document
    var targets: set<nat>

    constructor (doc: Document)
      ensures this.doc == doc && targets == {}
    {
      this.doc := doc;
      targets := {};
    }

    /** `observer.observe(element)`; observing an element twice is the same as once. */
    method Observe(k: nat)
      modifies this
      ensures targets == old(targets) + {k}
    {
      targets := targets + {k};
    }

    /** The callback, on the entries the browser delivers for observed elements. */
    method Notify(entries: seq<Entry>)
      requires EntriesFit(doc.elements, entries)
      requires forall j :: 0 <= j < |entries| ==> entries[j].target in targets
      modifies doc
      ensures doc.elements == Deliver(old(doc.elements), entries)
    {
      var i := 0;
      while i < |entries|
        invariant 0 <= i <= |entries|
        invariant |doc.elements| == |old(doc.elements)|
        invariant Deliver(doc.elements, entries[i..]) == Deliver(old(doc.elements), entries)
      {
        assert entries[i..][1..] == entries[i + 1..];
        var entry := entries[i];
        if entry.isIntersecting {
          doc.elements := doc.elements[entry.target := WithAppear(doc.elements[entry.target])];
        }
        i := i + 1;
      }
    }
  }

  // ---------------------------------------------------------------------------
  // resetAnimations

  /** One `.fade-in` element after `resetAnimations`: `appear` removed. */
  function ResetElement(e: Element): Element {
    if FadeIn in e.classes then e.(classes := e.classes - {Appear}) else e
  }

  function ResetAll(es: seq<Element>): seq<Element> {
    seq(|es|, k requires 0 <= k < |es| => ResetElement(es[k]))
  }

  /** `resetAnimations` clears `appear` on every `.fade-in` element and leaves every
      other class, and every element without `fade-in`, as it was. */
  lemma ResetEffect(es: seq<Element>, k: nat)
    requires k < |es|
    ensures |ResetAll(es)| == |es| && ResetAll(es)[k].id == es[k].id
    ensures FadeIn in es[k].classes ==> Appear !in ResetAll(es)[k].classes
    ensures FadeIn !in es[k].classes ==> ResetAll(es)[k] == es[k]
    ensures ResetAll(es)[k].classes - {Appear} == es[k].classes - {Appear}
  {
  }

  // ---------------------------------------------------------------------------
  // The animation system

  class AnimationSystem {
    const doc: Document
    var observer: RevealObserver?
    var pageTransition: Option<nat>

    /** `new AnimationSystem()`: `init` creates the overlay and sets up the scroll
        animations (the entry animations and the link handlers change only styles
        and listeners). */
    constructor (doc: Document)
      modifies doc
      ensures this.doc == doc
      ensures pageTransition.Some? && (doc.elements, pageTransition.value) == EnsureTransition(old(doc.elements))
      ensures observer != null && fresh(observer) && observer.doc == doc
      ensures observer.targets == WithClass(doc.elements, FadeIn)
    {
      this.doc := doc;
      observer := null;
      pageTransition := None;
      new;
      CreatePageTransition();
      SetupScrollAnimations();
    }

    /** `createPageTransition`: reuse the element with id `pageTransition`, or
        prepend a new one to the body when there is none. */
    method CreatePageTransition()
      modifies this, doc
      ensures pageTransition.Some? && (doc.elements, pageTransition.value) == EnsureTransition(old(doc.elements))
      ensures observer == old(observer)
    {
      if GetElementById(doc.elements, TransitionId).None? {
        doc.elements := [Overlay()] + doc.elements;
        pageTransition := Some(0);
      } else {
        pageTransition := GetElementById(doc.elements, TransitionId);
      }
    }

    /** `setupScrollAnimations`: a new observer watching every `.fade-in` element. */
    method SetupScrollAnimations()
      modifies this
      ensures observer != null && fresh(observer) && observer.doc == doc
      ensures observer.targets == WithClass(doc.elements, FadeIn)
      ensures pageTransition == old(pageTransition)
    {
      var o := new RevealObserver(doc);
      var k := 0;
      while k < |doc.elements|
        invariant 0 <= k <= |doc.elements|
        invariant fresh(o) && o.doc == doc && pageTransition == old(pageTransition)
        invariant o.targets == set j: nat | j < k && FadeIn in doc.elements[j].classes
      {
        if FadeIn in doc.elements[k].classes {
          o.Observe(k);
        }
        k := k + 1;
      }
      assert o.targets == WithClass(doc.elements, FadeIn);
      observer := o;
    }

    /** `resetAnimations`: `appear` removed from every `.fade-in` element (the
        slide-in classes are re-added only where they already are), then every
        `.fade-in` element observed again. */
    method ResetAnimations()
      requires observer != null && observer.doc == doc
      modifies doc, observer
      ensures doc.elements == ResetAll(old(doc.elements))
      ensures observer.targets == old(observer.targets) + WithClass(doc.elements, FadeIn)
    {
      var k := 0;
      while k < |doc.elements|
        invariant 0 <= k <= |doc.elements| == |old(doc.elements)|
        invariant forall j :: 0 <= j < k ==> doc.elements[j] == ResetElement(old(doc.elements)[j])
        invariant forall j :: k <= j < |doc.elements| ==> doc.elements[j] == old(doc.elements)[j]
        invariant observer.targets == old(observer.targets)
      {
        var el := doc.elements[k];
        if FadeIn in el.classes {
          var classes := el.classes - {Appear};
          if SlideInLeft in classes {
            classes := classes + {SlideInLeft};
          } else if SlideInRight in classes {
            classes := classes + {SlideInRight};
          } else if SlideInBottom in classes {
            classes := classes + {SlideInBottom};
          }
          doc.elements := doc.elements[k := el.(classes := classes)];
        }
        k := k + 1;
      }
      assert doc.elements == ResetAll(old(doc.elements));

      ghost var before := observer.targets;
      k := 0;
      while k < |doc.elements|
        invariant 0 <= k <= |doc.elements|
        invariant doc.elements == ResetAll(old(doc.elements))
        invariant observer.targets == before + set j: nat | j < k && FadeIn in doc.elements[j].classes
      {
        if FadeIn in doc.elements[k].classes {
          observer.Observe(k);
        }
        k := k + 1;
      }
      assert observer.targets == before + WithClass(doc.elements, FadeIn);
    }
  }

  // ---------------------------------------------------------------------------
  // The page script's `.animate-in` elements

  /** `getBoundingClientRect()`: the top and bottom edges, in pixels from the viewport's top. */
  datatype Rect = Rect(top: real, bottom: real)

  /** `rect.top < window.innerHeight && rect.bottom >= 0` */
  predicate InViewport(r: Rect, innerHeight: int) {
    r.top < innerHeight as real && r.bottom >= 0.0
  }

  /** The setup check: every `.animate-in` element inside the viewport gets `appear`. */
  function RevealInViewport(es: seq<Element>, rects: seq<Rect>, innerHeight: int): seq<Element>
    requires |rects| == |es|
  {
    seq(|es|, k requires 0 <= k < |es| =>
      if AnimateIn in es[k].classes && InViewport(rects[k], innerHeight) then WithAppear(es[k]) else es[k])
  }

  /** After the setup check an `.animate-in` element carries `appear` exactly when
      it lies in the viewport or carried it already; no other class or element changes. */
  lemma SetupCheckEffect(es: seq<Element>, rects: seq<Rect>, innerHeight: int, k: nat)
    requires |rects| == |es| && k < |es|
    ensures |RevealInViewport(es, rects, innerHeight)| == |es|
    ensures AnimateIn in es[k].classes ==>
      (Appear in RevealInViewport(es, rects, innerHeight)[k].classes <==>
         Appear in es[k].classes || InViewport(rects[k], innerHeight))
    ensures AnimateIn !in es[k].classes ==> RevealInViewport(es, rects, innerHeight)[k] == es[k]
    ensures RevealInViewport(es, rects, innerHeight)[k].classes - {Appear} == es[k].classes - {Appear}
  {
  }

  /** The page script's setup: observe every `.animate-in` element, then reveal
      those already inside the viewport of height `innerHeight`. */
  method SetupAnimateIn(doc: Document, rects: seq<Rect>, innerHeight: int) returns (observer: RevealObserver)
    requires |rects| == |doc.elements|
    modifies doc
    ensures fresh(observer) && observer.doc == doc
    ensures observer.targets == WithClass(old(doc.elements), AnimateIn)
    ensures doc.elements == RevealInViewport(old(doc.elements), rects, innerHeight)
  {
    observer := new RevealObserver(doc);
    var k := 0;
    while k < |doc.elements|
      invariant 0 <= k <= |doc.elements|
      invariant fresh(observer) && observer.doc == doc && doc.elements == old(doc.elements)
      invariant observer.targets == set j: nat | j < k && AnimateIn in doc.elements[j].classes
    {
      if AnimateIn in doc.elements[k].classes {
        observer.Observe(k);
      }
      k := k + 1;
    }
    assert observer.targets == WithClass(old(doc.elements), AnimateIn);
    k := 0;
    while k < |doc.elements|
      invariant 0 <= k <= |doc.elements| == |old(doc.elements)|
      invariant observer.targets == WithClass(old(doc.elements), AnimateIn)
      invariant forall j :: 0 <= j < k ==>
        doc.elements[j] == RevealInViewport(old(doc.elements), rects, innerHeight)[j]
      invariant forall j :: k <= j < |doc.elements| ==> doc.elements[j] == old(doc.elements)[j]
    {
      var el := doc.elements[k];
      if AnimateIn in el.classes && rects[k].top < innerHeight as real && rects[k].bottom >= 0.0 {
        doc.elements := doc.elements[k := WithAppear(el)];
      }
      k := k + 1;
    }
  }

  /** Three `.animate-in` elements, the first on screen and the other two 2000 px
      below the fold of an 800 px viewport: after setup only the first is revealed;
      once a scroll brings the second into view, the second is too and the third is not. */
  lemma ThreeElementScenario()
    ensures var es := [Element("", {AnimateIn}), Element("", {AnimateIn}), Element("", {AnimateIn})];
      var rects := [Rect(100.0, 300.0), Rect(2100.0, 2300.0), Rect(2400.0, 2600.0)];
      var afterSetup := RevealInViewport(es, rects, 800);
      var afterScroll := Deliver(afterSetup, [Entry(1, true), Entry(2, false)]);
      Appear in afterSetup[0].classes && Appear !in afterSetup[1].classes && Appear !in afterSetup[2].classes
      && Appear in afterScroll[1].classes && Appear !in afterScroll[2].classes
  {
  }
}
