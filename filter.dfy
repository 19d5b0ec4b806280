/** The document filter of the listing page (`filterDocuments`).

    The page is given by its layout (which does not change) and its display
    state (which the filter rewrites). A display flag is `true` when the
    element's inline style says `display: block` and `false` otherwise
    (`display: none`, or no inline display at all): the selector
    `.document[style*="display: block"]` sees exactly the `true` ones.

    `Filter` replays the source's loops on values, in the source's order;
    `FilterPage.FilterDocuments` runs them on arrays and is proved to agree with
    it; the lemmas at the end state what the filter achieves. */
module DocumentFilter {
  import opened Dom

  /** A document's parent element: its category itself, or another element
      (a list or grid wrapper inside the category). */
  datatype Parent = CategoryParent(category: nat) | OtherParent(element: nat)

  /** A `.document`: its `data-type` attribute, its closest `.category`
      ancestor (`None` when it has none) and its parent element. */
  datatype Doc = Doc(dataType: Option<string>, category: Option<nat>, parent: Parent)

  /** The page: the `data-filter` attribute of each `.filter-btn`, the
      `.document`s in document order, and how many `.category` elements and
      other parent elements there are. */
  datatype Layout = Layout(buttons: seq<Option<string>>, docs: seq<Doc>, categoryCount: nat, otherCount: nat)

  /** Which buttons carry `active`, and the display flag of every document,
      category and other parent element. */
  datatype Display = Display(active: seq<bool>, docs: seq<bool>, categories: seq<bool>, others: seq<bool>)

  /** The display state after a run, and whether the run stopped on a `TypeError`. */
  datatype Outcome = Outcome(display: Display, threw: bool)

  /** The filter value that shows every document. */
  const ShowAll := "todos"

  predicate DocWellFormed(l: Layout, d: Doc) {
    (d.category.Some? ==> d.category.value < l.categoryCount) &&
    match d.parent
    case CategoryParent(c) => d.category == Some(c)
    case OtherParent(e) => e < l.otherCount
  }

  /** Every index is in range, and a document whose parent is a category has that category as its closest one. */
  predicate WellFormed(l: Layout) {
    forall i :: 0 <= i < |l.docs| ==> DocWellFormed(l, l.docs[i])
  }

  predicate Fits(l: Layout, s: Display) {
    |s.active| == |l.buttons| && |s.docs| == |l.docs|
    && |s.categories| == l.categoryCount && |s.others| == l.otherCount
  }

  /** `filter === 'todos' || docType === filter` */
  predicate Selects(filter: Option<string>, dataType: Option<string>) {
    filter == Some(ShowAll) || dataType == filter
  }

  /** Document `i` would throw: it is hidden and has no category to look into. */
  predicate Throws(l: Layout, filter: Option<string>, i: int)
    requires 0 <= i < |l.docs|
  {
    !Selects(filter, l.docs[i].dataType) && l.docs[i].category.None?
  }

  /** `category.querySelectorAll('.document[style*="display: block"]').length > 0` */
  predicate HasShownDoc(l: Layout, shown: seq<bool>, c: nat)
    requires |shown| == |l.docs|
  {
    exists i :: 0 <= i < |l.docs| && l.docs[i].category == Some(c) && shown[i]
  }

  /** Category `c` has a document among the first `n`. */
  predicate HasDocBefore(l: Layout, c: nat, n: int) {
    exists i :: 0 <= i < n && i < |l.docs| && l.docs[i].category == Some(c)
  }

  /** Category `c` has a document the filter selects. */
  predicate HasSelectedDoc(l: Layout, filter: Option<string>, c: nat) {
    exists i :: 0 <= i < |l.docs| && l.docs[i].category == Some(c) && Selects(filter, l.docs[i].dataType)
  }

  /** Other element `e` is the parent of a document the filter selects among the first `n`. */
  predicate ParentOfSelectedBefore(l: Layout, filter: Option<string>, e: nat, n: int) {
    exists i :: 0 <= i < n && i < |l.docs| && l.docs[i].parent == OtherParent(e) && Selects(filter, l.docs[i].dataType)
  }

  /** The first loop: `active` removed from every button, then added where `data-filter` equals the filter. */
  function ActivateButtons(l: Layout, filter: Option<string>, s: Display): (r: Display)
    requires Fits(l, s)
    ensures Fits(l, r)
  {
    s.(active := seq(|l.buttons|, b requires 0 <= b < |l.buttons| => l.buttons[b] == filter))
  }

  /** One turn of the `documents.forEach` loop, on document `i`. */
  function DocStep(l: Layout, filter: Option<string>, s: Display, i: nat): (r: Outcome)
    requires WellFormed(l) && Fits(l, s) && i < |l.docs|
    ensures Fits(l, r.display)
  {
    var d := l.docs[i];
    assert DocWellFormed(l, d);
    if Selects(filter, d.dataType) then
      var shown := s.(docs := s.docs[i := true]);
      match d.parent
      case CategoryParent(c) => Outcome(shown.(categories := shown.categories[c := true]), false)
      case OtherParent(e) => Outcome(shown.(others := shown.others[e := true]), false)
    else
      var hidden := s.(docs := s.docs[i := false]);
      match d.category
      case None => Outcome(hidden, true)
      case Some(c) =>
        if HasShownDoc(l, hidden.docs, c) then Outcome(hidden, false)
        else Outcome(hidden.(categories := hidden.categories[c := false]), false)
  }

  /** The `documents.forEach` loop from document `i` on; a throw ends it. */
  function DocsPass(l: Layout, filter: Option<string>, s: Display, i: nat): (r: Outcome)
    requires WellFormed(l) && Fits(l, s) && i <= |l.docs|
    ensures Fits(l, r.display)
    decreases |l.docs| - i
  {
    if i == |l.docs| then Outcome(s, false)
    else
      var o := DocStep(l, filter, s, i);
      if o.threw then o else DocsPass(l, filter, o.display, i + 1)
  }

  /** The final `categories.forEach` loop: a category with a shown document is shown. */
  function CategoriesPass(l: Layout, s: Display): (r: Display)
    requires Fits(l, s)
    ensures Fits(l, r)
  {
    s.(categories := seq(l.categoryCount, c requires 0 <= c < l.categoryCount =>
                                            s.categories[c] || HasShownDoc(l, s.docs, c)))
  }

  /** `filterDocuments(filter)` on the display state `s`. */
  function Filter(l: Layout, s: Display, filter: Option<string>): (r: Outcome)
    requires WellFormed(l) && Fits(l, s)
    ensures Fits(l, r.display)
  {
    var o := DocsPass(l, filter, ActivateButtons(l, filter, s), 0);
    if o.threw then o else Outcome(CategoriesPass(l, o.display), false)
  }

  /** What holds of the display state after the documents loop has handled the
      first `n` documents, starting from `s0` with the buttons already set. */
  predicate PassInvariant(l: Layout, filter: Option<string>, s0: Display, s: Display, n: nat)
    requires Fits(l, s0) && Fits(l, s) && n <= |l.docs|
  {
    s.active == s0.active
    && (forall i :: 0 <= i < n ==> s.docs[i] == Selects(filter, l.docs[i].dataType))
    && (forall i :: n <= i < |l.docs| ==> s.docs[i] == s0.docs[i])
    && (forall c :: 0 <= c < l.categoryCount && HasDocBefore(l, c, n) && !HasShownDoc(l, s.docs, c)
          ==> !s.categories[c])
    && (forall c :: 0 <= c < l.categoryCount && !HasDocBefore(l, c, n) ==> s.categories[c] == s0.categories[c])
    && (forall e :: 0 <= e < l.otherCount ==>
          s.others[e] == (s0.others[e] || ParentOfSelectedBefore(l, filter, e, n)))
  }

  /** One turn of the loop keeps the invariant. */
  lemma DocStepKeepsInvariant(l: Layout, filter: Option<string>, s0: Display, s: Display, n: nat)
    requires WellFormed(l) && Fits(l, s0) && Fits(l, s) && n < |l.docs|
    requires PassInvariant(l, filter, s0, s, n)
    requires !DocStep(l, filter, s, n).threw
    ensures PassInvariant(l, filter, s0, DocStep(l, filter, s, n).display, n + 1)
  {
  }

  /** The documents loop run from document `n` keeps the invariant to the end,
      and throws exactly when some document from `n` on throws. */
  lemma {:induction false} DocsPassSound(l: Layout, filter: Option<string>, s0: Display, s: Display, n: nat)
    requires WellFormed(l) && Fits(l, s0) && Fits(l, s) && n <= |l.docs|
    requires PassInvariant(l, filter, s0, s, n)
    ensures DocsPass(l, filter, s, n).threw <==> exists i :: n <= i < |l.docs| && Throws(l, filter, i)
    ensures !DocsPass(l, filter, s, n).threw ==> PassInvariant(l, filter, s0, DocsPass(l, filter, s, n).display, |l.docs|)
    decreases |l.docs| - n
  {
    if n < |l.docs| {
      var o := DocStep(l, filter, s, n);
      assert DocWellFormed(l, l.docs[n]);
      if o.threw {
        assert Throws(l, filter, n);
      } else {
        assert !Throws(l, filter, n);
        DocStepKeepsInvariant(l, filter, s0, s, n);
        DocsPassSound(l, filter, s0, o.display, n + 1);
        if exists i :: n <= i < |l.docs| && Throws(l, filter, i) {
          var i :| n <= i < |l.docs| && Throws(l, filter, i);
          assert i != n;
        }
      }
    }
  }

  /** At the end of the documents loop a category shows a document exactly when it has one the filter selects. */
  lemma ShownAtEnd(l: Layout, filter: Option<string>, s0: Display, s: Display, c: nat)
    requires Fits(l, s0) && Fits(l, s) && PassInvariant(l, filter, s0, s, |l.docs|)
    ensures HasShownDoc(l, s.docs, c) <==> HasSelectedDoc(l, filter, c)
  {
  }

  /** The filter throws exactly when a document it hides has no `.category` ancestor. */
  lemma FilterThrows(l: Layout, s: Display, filter: Option<string>)
    requires WellFormed(l) && Fits(l, s)
    ensures Filter(l, s, filter).threw <==> exists i :: 0 <= i < |l.docs| && Throws(l, filter, i)
  {
    var s1 := ActivateButtons(l, filter, s);
    assert PassInvariant(l, filter, s1, s1, 0);
    DocsPassSound(l, filter, s1, s1, 0);
  }

  /** After a run that does not throw: exactly the buttons whose `data-filter`
      equals the filter are active; exactly the selected documents are shown; a
      category with a selected document is shown, one whose documents are all
      hidden is hidden, one without documents keeps its flag; an other parent
      element is shown when it was or when it holds a selected document. */
  lemma FilterResult(l: Layout, s: Display, filter: Option<string>)
    requires WellFormed(l) && Fits(l, s)
    requires !Filter(l, s, filter).threw
    ensures var r := Filter(l, s, filter).display;
      && (forall b :: 0 <= b < |l.buttons| ==> (r.active[b] <==> l.buttons[b] == filter))
      && (forall i :: 0 <= i < |l.docs| ==> (r.docs[i] <==> filter == Some(ShowAll) || l.docs[i].dataType == filter))
      && (forall c :: 0 <= c < l.categoryCount ==>
            r.categories[c] == if HasSelectedDoc(l, filter, c) then true
                               else if HasDocBefore(l, c, |l.docs|) then false
                               else s.categories[c])
      && (forall e :: 0 <= e < l.otherCount ==>
            r.others[e] == (s.others[e] || ParentOfSelectedBefore(l, filter, e, |l.docs|)))
  {
    var s1 := ActivateButtons(l, filter, s);
    assert PassInvariant(l, filter, s1, s1, 0);
    DocsPassSound(l, filter, s1, s1, 0);
    var m := DocsPass(l, filter, s1, 0).display;
    forall c | 0 <= c < l.categoryCount
      ensures HasShownDoc(l, m.docs, c) <==> HasSelectedDoc(l, filter, c)
    {
      ShownAtEnd(l, filter, s1, m, c);
    }
  }

  /** Filtering twice with the same value leaves what filtering once left. */
  lemma FilterIdempotent(l: Layout, s: Display, filter: Option<string>)
    requires WellFormed(l) && Fits(l, s)
    requires !Filter(l, s, filter).threw
    ensures var r := Filter(l, s, filter).display;
      Filter(l, r, filter) == Filter(l, s, filter)
  {
    var r := Filter(l, s, filter).display;
    FilterThrows(l, s, filter);
    FilterThrows(l, r, filter);
    FilterResult(l, s, filter);
    FilterResult(l, r, filter);
    var r2 := Filter(l, r, filter).display;
    assert r2.active == r.active;
    assert r2.docs == r.docs;
    assert r2.categories == r.categories;
    assert r2.others == r.others;
  }

  /** The listing page's filter state: the layout as constants, the display flags in arrays. */
  class FilterPage {
    const buttons: seq<Option<string>>
    const docs: seq<Doc>
    const active: array<bool>
    const docShown: array<bool>
    const categoryShown: array<bool>
    const otherShown: array<bool>

    function Page(): Layout {
      Layout(buttons, docs, categoryShown.Length, otherShown.Length)
    }

    ghost predicate Valid() {
      WellFormed(Page()) && active.Length == |buttons| && docShown.Length == |docs|
      && active != docShown && active != categoryShown && active != otherShown
      && docShown != categoryShown && docShown != otherShown && categoryShown != otherShown
    }

    function View(): (s: Display)
      reads active, docShown, categoryShown, otherShown
      requires Valid()
      ensures Fits(Page(), s)
    {
      Display(active[..], docShown[..], categoryShown[..], otherShown[..])
    }

    /** The page as the markup leaves it. */
    constructor (l: Layout, markup: Display)
      requires WellFormed(l) && Fits(l, markup)
      ensures Valid() && Page() == l && View() == markup
    {
      buttons, docs := l.buttons, l.docs;
      active := new bool[|markup.active|](i requires 0 <= i < |markup.active| => markup.active[i]);
      docShown := new bool[|markup.docs|](i requires 0 <= i < |markup.docs| => markup.docs[i]);
      categoryShown := new bool[|markup.categories|](i requires 0 <= i < |markup.categories| => markup.categories[i]);
      otherShown := new bool[|markup.others|](i requires 0 <= i < |markup.others| => markup.others[i]);
    }

    /** Whether category `c` contains a document whose inline display is `block`. */
    method HasShownDocument(c: nat) returns (found: bool)
      requires Valid()
      ensures found == HasShownDoc(Page(), docShown[..], c)
    {
      found := false;
      var i := 0;
      while i < |docs|
        invariant 0 <= i <= |docs|
        invariant found == exists j :: 0 <= j < i && docs[j].category == Some(c) && docShown[j]
      {
        if docs[i].category == Some(c) && docShown[i] {
          found := true;
        }
        i := i + 1;
      }
    }

    /** `filterDocuments(filter)`; `threw` when a hidden document had no `.category` ancestor. */
    method FilterDocuments(filter: Option<string>) returns (threw: bool)
      requires Valid()
      modifies active, docShown, categoryShown, otherShown
      ensures Valid()
      ensures Outcome(View(), threw) == Filter(Page(), old(View()), filter)
    {
      var b := 0;
      while b < active.Length
        invariant 0 <= b <= active.Length
        invariant forall k :: 0 <= k < b ==> active[k] == (buttons[k] == filter)
        invariant docShown[..] == old(docShown[..]) && categoryShown[..] == old(categoryShown[..])
        invariant otherShown[..] == old(otherShown[..])
      {
        active[b] := false;
        if buttons[b] == filter {
          active[b] := true;
        }
        b := b + 1;
      }
      ghost var s1 := View();
      assert s1 == ActivateButtons(Page(), filter, old(View()));

      var i := 0;
      while i < |docs|
        invariant 0 <= i <= |docs|
        invariant DocsPass(Page(), filter, View(), i) == DocsPass(Page(), filter, s1, 0)
      {
        ghost var before := View();
        var d := docs[i];
        assert DocWellFormed(Page(), d);
        if filter == Some(ShowAll) || d.dataType == filter {
          docShown[i] := true;
          match d.parent
          case CategoryParent(c) => categoryShown[c] := true;
          case OtherParent(e) => otherShown[e] := true;
        } else {
          docShown[i] := false;
          match d.category
          case None =>
            assert View() == DocStep(Page(), filter, before, i).display;
            return true;
          case Some(c) =>
            var anyShown := HasShownDocument(c);
            if !anyShown {
              categoryShown[c] := false;
            }
        }
        assert View() == DocStep(Page(), filter, before, i).display;
        i := i + 1;
      }
      assert View() == DocsPass(Page(), filter, s1, 0).display;

      var c := 0;
      while c < categoryShown.Length
        invariant 0 <= c <= categoryShown.Length
        invariant active[..] == DocsPass(Page(), filter, s1, 0).display.active
        invariant docShown[..] == DocsPass(Page(), filter, s1, 0).display.docs
        invariant otherShown[..] == DocsPass(Page(), filter, s1, 0).display.others
        invariant forall k :: 0 <= k < c ==>
          categoryShown[k] == CategoriesPass(Page(), DocsPass(Page(), filter, s1, 0).display).categories[k]
        invariant forall k :: c <= k < categoryShown.Length ==>
          categoryShown[k] == DocsPass(Page(), filter, s1, 0).display.categories[k]
      {
        var anyShown := HasShownDocument(c);
        if anyShown {
          categoryShown[c] := true;
        }
        c := c + 1;
      }
      threw := false;
    }
  }
}
