# Raízes do Araguaia page scripts, modelled in Dafny

`animation.js` drives the document-listing page of the site. Two listeners run
when the markup is ready, the `AnimationSystem` one first:

- the **animation system** (`class AnimationSystem`) makes sure the page has one
  transition overlay (`#pageTransition`), reveals `.fade-in` elements by adding
  the class `appear` when an `IntersectionObserver` reports them, intercepts
  link clicks to slide the overlay in and navigate 500 ms later, and offers
  `resetAnimations`;
- the **page script** filters the listed documents by type (`filterDocuments`),
  runs a simulated download in a modal (a progress bar that grows by a random
  5 to 14 every 200 ms), reveals `.animate-in` elements (also at setup, for the
  ones already in the viewport), and intercepts link clicks again, by a
  different test, navigating 400 ms later.

The DOM is plain state here. In the filter, the page's layout is constant and
the display flags live in arrays. A flag is `true` when the element's inline
style says `display: block` and `false` otherwise. Elsewhere the document is a
sequence of `Element(id, classes)` values. The modal is a class whose fields
are the handful of properties the script writes. Intersection entries,
bounding boxes, resolved URLs and random draws are inputs.

Files: `dom.dfy` (attribute values, elements, `getElementById`), `links.dfy`
(the two link tests), `filter.dfy` (the document filter), `download.dfy` (the
download modal), `reveal.dfy` (reveal, overlay, `resetAnimations`).

Facts about the code that the model keeps:

- there are two link interceptors, with different tests: only the page
  script's skips download links (`Links.AnimationSystemTakesDownloadLinks`),
  only the animation system's skips links to another page's section
  (`Links.AnimationSystemSkipsOtherPageSections`), and only the page script's
  compares `target` with `_blank` ignoring case
  (`Links.AnimationSystemTakesUpperCaseBlank`);
- the observers only add `appear`, but `resetAnimations` removes it.

## Model

| member | source | states |
|---|---|---|
| `Dom.GetElementById` | animation.js:27-33 | the index returned carries the id and no earlier element does; `None` exactly when no element has the id |
| `Links.AnimationSystemClick` | animation.js:88-109 | a click is taken over exactly when the link is not `_blank` and its resolved URL has no `#`; the overlay slides in and the destination is the resolved URL, after 500 ms |
| `Links.PageScriptClick` | animation.js:315-329 | a click is taken over exactly when the selector matches (its `target` test ignoring ASCII case) and the handler's test passes; the destination is the resolved URL, after 400 ms |
| `Links.PageScriptFollowsIntendedRule` | animation.js:91-320 | for a browser-resolved link, the page script intercepts exactly the links the source's comments and checks mean for a transition: not opening a new tab (`target` equal to `_blank` ignoring case), with an `href`, no leading `#`, not `download-link`; its `href !== '#'` test never decides |
| `Links.AnimationSystemRule` | animation.js:92-95 | for a browser-resolved link, the animation system intercepts exactly the non-`_blank` links whose `href` attribute is absent or has no `#` |
| `Links.NeitherTakesNewTabOrAnchor` | animation.js:92-320 | neither interceptor takes a `_blank` link or an `href` starting with `#`; both clicks follow the browser's default |
| `Links.PageScriptWithoutFragmentIsShared` | animation.js:316-320 | every link the page script intercepts whose `href` has no `#` is intercepted by the animation system too |
| `Links.AnimationSystemTakesDownloadLinks` | animation.js:92-95 | some browser-resolved `download-link` is intercepted by the animation system and not by the page script |
| `Links.AnimationSystemTakesLinksWithoutHref` | animation.js:92-107 | a link with no `href` is intercepted by the animation system, which navigates to the empty URL after 500 ms |
| `Links.AnimationSystemTakesUpperCaseBlank` | animation.js:92-316 | some browser-resolved link with `target="_BLANK"` opens a new tab and is left alone by the page script's selector, but is intercepted by the animation system's exact `=== '_blank'` test |
| `Links.AnimationSystemSkipsOtherPageSections` | animation.js:95 | some link to another page's section is meant for a transition and is intercepted by the page script, but not by the animation system |
| `DocumentFilter.FilterPage.constructor` | animation.js:145-147 | the page object holds the given layout and the markup's display flags |
| `DocumentFilter.FilterPage.HasShownDocument` | animation.js:183-184 | the answer is true exactly when category `c` holds a document whose flag is `display: block` |
| `DocumentFilter.FilterPage.FilterDocuments` | animation.js:162-197 | running the three loops on the arrays leaves exactly the display state, and the throw, that the loop-by-loop specification `Filter` gives from the old state |
| `DocumentFilter.DocStepKeepsInvariant` | animation.js:172-188 | one turn of the documents loop keeps the invariant: handled documents show exactly when selected; a category with a handled document and no shown one is hidden; untouched categories keep their flag |
| `DocumentFilter.DocsPassSound` | animation.js:172-188 | the documents loop throws exactly when a remaining document is hidden and has no category; otherwise the invariant holds for all documents |
| `DocumentFilter.ShownAtEnd` | animation.js:190-196 | after the documents loop, a category shows a document exactly when it has a document the filter selects |
| `DocumentFilter.FilterThrows` | animation.js:179-185 | `filterDocuments` throws exactly when a document it hides has no `.category` ancestor |
| `DocumentFilter.FilterResult` | animation.js:162-197 | without a throw: a button is active exactly when its `data-filter` equals the filter; a document is shown exactly when the filter is `todos` or equals its `data-type`; a category with a selected document is shown, one whose documents are all hidden is hidden, one without documents keeps its flag; other parents are shown if they were or if they hold a selected document |
| `DocumentFilter.FilterIdempotent` | animation.js:162-197 | applying the same filter a second time leaves exactly the state the first application left |
| `Download.Advance` | animation.js:222-224 | one tick raises the progress by 5 to 14 and never past 100; it gives 100 exactly when the sum reaches 100 |
| `Download.RunBounds` | animation.js:218-225 | across the ticks that fire, progress stays within 0..100 and grows by at least 5 and at most 14 per tick; the interval stops only at 100 |
| `Download.CompletesWithinTwentyTicks` | animation.js:218-225 | from 0, the interval fires at most 20 times, and 20 rolls always reach exactly 100 |
| `Download.NeedsAtLeastEightTicks` | animation.js:222-224 | no roll sequence reaches 100 in fewer than 8 ticks |
| `Download.DownloadModal.constructor` | animation.js:149-159 | before any download: no timer, no save handler, no current download |
| `Download.DownloadModal.StartDownload` | animation.js:208-268 | the title and description texts are set, the button is hidden, the modal is active, progress and bar are 0 and the interval runs |
| `Download.DownloadModal.Tick` | animation.js:221-252 | progress advances by the roll and is clamped at 100; the bar follows; at exactly the tick that reaches 100 the interval stops, the button shows, the ready text and the save handler are set |
| `Download.DownloadModal.Dismiss` | animation.js:272-281 | close or cancel removes `active` and leaves no interval running; nothing else changes |
| `Download.DownloadModal.ModalClicked` | animation.js:283-289 | a click on the backdrop itself closes the modal and clears the interval; any other click changes nothing; no other field changes |
| `Download.DownloadModal.SaveClicked` | animation.js:232-249 | a click on the shown download button closes the modal when a save handler is installed; no other field changes |
| `Reveal.EnsureTransition` | animation.js:25-35 | afterwards an overlay exists and is the one `getElementById` finds; a new one is prepended only when none existed, so the count becomes 1 or stays as it was |
| `Reveal.TransitionSingleton` | animation.js:27-34 | with at most one overlay before, there is exactly one after, and a second run changes nothing |
| `Reveal.DeliverEffect` | animation.js:74-80 | the observer callback gives `appear` to exactly the elements some entry reports intersecting and changes no other element |
| `Reveal.AppearMonotone` | animation.js:294-300 | the callback never removes `appear`, gains it only by an intersecting entry, and changes no other class or id |
| `Reveal.RevealObserver.Observe` | animation.js:84 | observing adds the element to the observer's targets |
| `Reveal.RevealObserver.Notify` | animation.js:75-79 | the callback's loop over the entries leaves the document as `Deliver` specifies |
| `Reveal.ResetEffect` | animation.js:112-126 | reset clears `appear` on every `.fade-in` element, leaves all other classes (the slide-in ones included) and every other element unchanged |
| `Reveal.AnimationSystem.constructor` | animation.js:5-23 | `init` leaves the overlay as `EnsureTransition` says and a fresh observer watching every `.fade-in` element |
| `Reveal.AnimationSystem.CreatePageTransition` | animation.js:25-35 | the document and `this.pageTransition` become what `EnsureTransition` gives |
| `Reveal.AnimationSystem.SetupScrollAnimations` | animation.js:67-86 | a new observer watches exactly the `.fade-in` elements |
| `Reveal.AnimationSystem.ResetAnimations` | animation.js:112-134 | the document becomes `ResetAll` of the old one (the slide-in re-adds are no-ops) and every `.fade-in` element is observed again |
| `Reveal.SetupCheckEffect` | animation.js:306-312 | after the setup check an `.animate-in` element has `appear` exactly when it had it or its box meets `top < innerHeight && bottom >= 0`; nothing else changes |
| `Reveal.SetupAnimateIn` | animation.js:292-312 | a new observer watches exactly the `.animate-in` elements, and the document becomes what the setup check gives |
| `Reveal.ThreeElementScenario` | animation.js:294-312 | with three elements, one on screen and two far below, only the first is revealed at setup; a scroll entry for the second reveals it and not the third |

## Left out

- `setupEntryAnimations` and `animateHeaderElements` (animation.js:37-65) only set opacity and CSS animation strings with fractional delays; they change no state the model tracks.
- The intersection geometry and the 0.1 threshold: the observer's entries are an input, and the browser is trusted to deliver them only for observed elements.
- Timers: the 400 ms and 500 ms navigation delays are recorded in the `Click` outcome and never run. The 200 ms interval is one `Tick` call per firing. The 50 ms re-observe in `resetAnimations` and the 100 ms modal close after a save run at once.
- The page script's setup is modelled as if `#closeModal`, `#cancelBtn` and `#downloadModal` exist. When one is missing, its `addEventListener` call (animation.js:273, 278 or 284) throws, and the rest of that setup never runs: the `.animate-in` observer and its initial check (animation.js:292-312) and the link interceptor (animation.js:315-329). `Reveal.SetupAnimateIn` and `Links.PageScriptClick` describe a page where that setup ran.
- `Math.random` is the `roll` parameter (0..9).
- `Blob`, `URL.createObjectURL`/`revokeObjectURL`, the temporary anchor and its `click()`, and the `window.location.href` assignment are browser I/O. A save only closes the modal, and navigation is the `Click` outcome.
- The overlay's `transform` style is not element state; `SlideThenNavigate` stands for it.
- Registering a click listener on each link (`addEventListener`) is not modelled as a registry: each block's decision is a function of the link.
- The filter buttons' click listener (animation.js:200-205) only passes the button's `data-filter` to `filterDocuments`, which `FilterDocuments` takes as its argument.
- The display flag merges `display: none` with no inline display, since the script's selector tells only `display: block` apart.
- Nested categories are not modelled: a document belongs to its closest `.category` and is counted only there.
- The `textContent` of the modal before any download and the bar's width string are taken as given values.
- Download.DownloadModal.StartDownload: requires that no interval is running. A second download link clicked during a download would leave the first interval running beside the new one, which the model does not represent.
- DocumentFilter.FilterIdempotent: stated only for runs that do not throw; after a `TypeError` the documents the loop never reached keep their old flags.
