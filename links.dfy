/** Which links the page's two click interceptors take over.

    The animation system (`setupPageTransitions`) and the page script (the
    `a[href]:not(...)` block) each slide the transition overlay in and navigate
    after a delay, but they choose their links by different tests. Both tests
    are written out here, side by side with the rule their comments and checks
    state (skip new-tab links, same-page anchors, links with no `href` and
    download links), and the lemmas show where they agree and where they part. */
module Links {
  import opened Dom

  /** A link: its `target` attribute ("" when absent), its raw `href` attribute,
      the URL the browser resolves it to (the `href` property, "" when the
      attribute is absent) and its `classList`. */
  datatype Link = Link(target: string, href: Option<string>, resolved: string, classes: set<string>)

  /** What a click on a link ends in: the browser's own navigation, or the overlay
      sliding in (`translateY(0)`) and `window.location.href` set after `delayMs`. */
  datatype Click = FollowDefault | SlideThenNavigate(destination: string, delayMs: nat)

  const AnimationSystemDelayMs: nat := 500
  const PageScriptDelayMs: nat := 400

  predicate StartsWith(s: string, p: string) {
    |p| <= |s| && s[..|p|] == p
  }

  /** ASCII lower case of one character, as HTML compares keywords. */
  function LowerChar(c: char): char {
    if 'A' <= c <= 'Z' then (c as int + 32) as char else c
  }

  /** ASCII lower case of a string. */
  function Lower(s: string): (r: string)
    ensures |r| == |s|
  {
    seq(|s|, i requires 0 <= i < |s| => LowerChar(s[i]))
  }

  lemma LowerBlank()
    ensures Lower("_blank") == "_blank"
  {
    assert Lower("_blank")[1] == 'b';
  }

  /** A link opens a new browsing context when its `target` is the keyword
      `_blank`, which HTML matches ignoring ASCII case. */
  predicate OpensNewTab(l: Link) {
    Lower(l.target) == "_blank"
  }

  /** What URL resolution guarantees about the `href` property: empty exactly when
      the attribute is missing, otherwise an absolute URL (so neither "" nor "#")
      that has a fragment exactly when the attribute has one. */
  predicate BrowserResolved(l: Link) {
    match l.href
    case None => l.resolved == ""
    case Some(h) => l.resolved != "" && l.resolved != "#" && ('#' in l.resolved <==> '#' in h)
  }

  /** The links meant for a transition, as the source's comments and checks say:
      not one that opens a new tab (animation.js:91), not an anchor on the same
      page (animation.js:94), not one without an `href` and not a download link
      (the `a[href]` selector and the handler's tests at animation.js:316-320). */
  predicate IntendedForTransition(l: Link) {
    !OpensNewTab(l) && l.href.Some? && !StartsWith(l.href.value, "#")
    && "download-link" !in l.classes
  }

  /** `AnimationSystem.setupPageTransitions`: every link is kept except those whose
      `target` property is exactly `_blank` and those whose resolved URL contains
      '#' anywhere. */
  predicate InterceptedByAnimationSystem(l: Link) {
    l.target != "_blank" && '#' !in l.resolved
  }

  /** The selector `a[href]:not([target="_blank"]):not([href^="#"])`; in an HTML
      document the `target` attribute selector ignores ASCII case, `href^=` does not. */
  predicate SelectedByPageScript(l: Link) {
    l.href.Some? && Lower(l.target) != "_blank" && !StartsWith(l.href.value, "#")
  }

  /** The test inside the page script's click handler, on the resolved URL and the class list. */
  predicate HandlerAcceptsInPageScript(l: Link) {
    l.resolved != "" && l.resolved != "#" && "download-link" !in l.classes
  }

  predicate InterceptedByPageScript(l: Link) {
    SelectedByPageScript(l) && HandlerAcceptsInPageScript(l)
  }

  /** A click on a link as the animation system's handler treats it. */
  function AnimationSystemClick(l: Link): (r: Click)
    ensures r.SlideThenNavigate? <==> InterceptedByAnimationSystem(l)
    ensures r.SlideThenNavigate? ==> r.destination == l.resolved && r.delayMs == 500
  {
    if InterceptedByAnimationSystem(l) then SlideThenNavigate(l.resolved, AnimationSystemDelayMs)
    else FollowDefault
  }

  /** A click on a link as the page script's handler treats it. */
  function PageScriptClick(l: Link): (r: Click)
    ensures r.SlideThenNavigate? <==> InterceptedByPageScript(l)
    ensures r.SlideThenNavigate? ==> r.destination == l.resolved && r.delayMs == 400
  {
    if InterceptedByPageScript(l) then SlideThenNavigate(l.resolved, PageScriptDelayMs)
    else FollowDefault
  }

  /** Under URL resolution the page script's two tests together are exactly the
      intended rule; its `href !== '#'` and non-empty checks never decide anything. */
  lemma PageScriptFollowsIntendedRule(l: Link)
    requires BrowserResolved(l)
    ensures InterceptedByPageScript(l) <==> IntendedForTransition(l)
    ensures SelectedByPageScript(l) ==> l.resolved != "" && l.resolved != "#"
  {
  }

  /** Under URL resolution the animation system keeps a link exactly when it does
      not open a new tab and its `href` attribute, if any, has no '#'. */
  lemma AnimationSystemRule(l: Link)
    requires BrowserResolved(l)
    ensures InterceptedByAnimationSystem(l)
        <==> l.target != "_blank" && (l.href.None? || '#' !in l.href.value)
  {
  }

  /** Both interceptors leave alone links whose `target` is exactly `_blank`, and
      in-page anchors. */
  lemma NeitherTakesNewTabOrAnchor(l: Link)
    requires BrowserResolved(l)
    requires l.target == "_blank" || (l.href.Some? && StartsWith(l.href.value, "#"))
    ensures !InterceptedByAnimationSystem(l) && !InterceptedByPageScript(l)
    ensures AnimationSystemClick(l) == FollowDefault && PageScriptClick(l) == FollowDefault
  {
    if l.target != "_blank" {
      assert l.href.value[0] == '#';
    } else {
      LowerBlank();
    }
  }

  /** Everything the page script intercepts that has no fragment in its `href`,
      the animation system intercepts too. */
  lemma PageScriptWithoutFragmentIsShared(l: Link)
    requires BrowserResolved(l)
    requires InterceptedByPageScript(l) && '#' !in l.href.value
    ensures InterceptedByAnimationSystem(l)
  {
    LowerBlank();
  }

  /** The two rules differ: the animation system takes over a download link ... */
  lemma AnimationSystemTakesDownloadLinks()
    ensures exists l :: (BrowserResolved(l) && "download-link" in l.classes
                         && InterceptedByAnimationSystem(l) && !InterceptedByPageScript(l))
  {
    var l := Link("", Some("a.pdf"), "/a.pdf", {"download-link"});
    assert BrowserResolved(l) && InterceptedByAnimationSystem(l);
  }

  /** ... and a link with no `href` at all, whose navigation target is the empty URL ... */
  lemma AnimationSystemTakesLinksWithoutHref()
    ensures exists l :: (BrowserResolved(l) && l.href.None?
                         && AnimationSystemClick(l) == SlideThenNavigate("", 500))
  {
    var l := Link("", None, "", {});
    assert BrowserResolved(l) && AnimationSystemClick(l) == SlideThenNavigate("", 500);
  }

  /** ... and a link with `target="_BLANK"`, which opens a new tab and which the
      page script's selector leaves out ... */
  lemma AnimationSystemTakesUpperCaseBlank()
    ensures exists l :: (BrowserResolved(l) && OpensNewTab(l)
                         && InterceptedByAnimationSystem(l) && !InterceptedByPageScript(l))
  {
    var l := Link("_BLANK", Some("/x"), "/x", {});
    assert l.target[1] == 'B';
    assert Lower(l.target)[1] == 'b';
    assert Lower(l.target) == "_blank";
    assert BrowserResolved(l) && InterceptedByAnimationSystem(l);
  }

  /** ... while it leaves a link to another page's section, which is meant for a
      transition and which the page script takes. */
  lemma AnimationSystemSkipsOtherPageSections()
    ensures exists l :: (BrowserResolved(l) && IntendedForTransition(l)
                         && !InterceptedByAnimationSystem(l) && InterceptedByPageScript(l))
  {
    var l := Link("", Some("p#s"), "/p#s", {});
    assert l.href.value[1] == '#' && l.resolved[2] == '#';
    assert "p#s"[..1][0] == 'p';
    assert Lower(l.target) == "";
    assert BrowserResolved(l) && IntendedForTransition(l);
  }
}
