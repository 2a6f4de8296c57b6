/** The smaller page passes of the content scripts: the feed column, the
    sidebar, promoted tweets, the skip link and the performance-mode class
    on the body. */
module Page {
  import opened Dom
  import opened Rules

  const FeedStyles: map<string, string> := map["maxWidth" := "none", "width" := "100%", "padding" := "0", "margin" := "0"]
  const LegacyFeedStyles: map<string, string> := map["maxWidth" := "none", "width" := "100%"]

  const NavStyles: map<string, string> :=
    map["position" := "fixed", "left" := "0", "top" := "0", "height" := "100vh", "width" := "200px",
        "zIndex" := "1000", "backgroundColor" := "#ffffff", "borderRight" := "1px solid #e1e8ed"]
  const LegacyNavStyles: map<string, string> :=
    map["position" := "fixed", "left" := "0", "top" := "0", "height" := "100vh", "width" := "200px",
        "zIndex" := "1000"]

  /** Viewport widths from this one up count as desktop. */
  const DesktopWidth := 1024

  const SkipLinkText := "Skip to main content"
  const MainContentId := "main-content"

  /** `document.querySelector('[data-testid="primaryColumn"]')`. */
  function PrimaryColumn(es: seq<Element>): Option<nat>
  {
    FirstWithTestId(es, "primaryColumn", 0)
  }

  /** `document.querySelector('[data-testid="sidebarColumn"]')`. */
  function Sidebar(es: seq<Element>): Option<nat>
  {
    FirstWithTestId(es, "sidebarColumn", 0)
  }

  /** Adds `classes` and `style` to the element at `p`. */
  function Decorate(es: seq<Element>, p: nat, classes: set<string>, style: map<string, string>): (r: seq<Element>)
    requires p < |es|
    ensures |r| == |es| && SameShape(r, es)
    ensures forall k :: 0 <= k < |es| && k != p ==> r[k] == es[k]
    ensures r[p].classes == es[p].classes + classes
    ensures forall q :: q in style ==> q in r[p].style && r[p].style[q] == style[q]
    ensures forall q :: q in r[p].style && q !in style ==> q in es[p].style && r[p].style[q] == es[p].style[q]
  {
    es[p := es[p].(classes := es[p].classes + classes, style := es[p].style + style)]
  }

  lemma DecorateTwice(es: seq<Element>, p: nat, classes: set<string>, style: map<string, string>)
    requires p < |es|
    ensures Decorate(Decorate(es, p, classes, style), p, classes, style) == Decorate(es, p, classes, style)
  {
    var e := es[p];
    assert (e.style + style) + style == e.style + style;
  }

  // ---------------------------------------------------------------------
  // transformFeedContainer

  function FeedClasses(v: Version): set<string>
  {
    if v == Current then {Applied, Dense} else {Applied}
  }

  function FeedStylesFor(v: Version): map<string, string>
  {
    if v == Current then FeedStyles else LegacyFeedStyles
  }

  /** The page after `transformFeedContainer`. */
  function TransformFeed(es: seq<Element>, v: Version): (r: seq<Element>)
    ensures |r| == |es|
  {
    match PrimaryColumn(es)
    case None => es
    case Some(p) => Decorate(es, p, FeedClasses(v), FeedStylesFor(v))
  }

  /** Without a primary column the pass does nothing; otherwise it decorates
      the first primary column and nothing else. The older copy adds only
      `ux-fixer-applied` and sets only `maxWidth` and `width`. */
  lemma FeedEffect(es: seq<Element>, v: Version)
    ensures var r := TransformFeed(es, v);
            && |r| == |es| && SameShape(r, es)
            && (PrimaryColumn(es).None? ==> r == es)
            && (forall k :: 0 <= k < |es| && PrimaryColumn(es) != Some(k) ==> r[k] == es[k])
    ensures PrimaryColumn(es).Some? ==>
              var p := PrimaryColumn(es).value;
              var r := TransformFeed(es, v);
              && r[p].classes == es[p].classes + FeedClasses(v)
              && (forall q :: q in FeedStylesFor(v) ==> q in r[p].style && r[p].style[q] == FeedStylesFor(v)[q])
              && (forall q :: q in r[p].style && q !in FeedStylesFor(v) ==> q in es[p].style && r[p].style[q] == es[p].style[q])
    ensures v == Legacy && PrimaryColumn(es).Some? ==>
              var p := PrimaryColumn(es).value;
              var r := TransformFeed(es, v);
              && r[p].classes == es[p].classes + {Applied}
              && (forall q :: q in r[p].style && q != "maxWidth" && q != "width" ==> q in es[p].style && r[p].style[q] == es[p].style[q])
  {
  }

  lemma FeedIdempotent(es: seq<Element>, v: Version)
    ensures TransformFeed(TransformFeed(es, v), v) == TransformFeed(es, v)
  {
    match PrimaryColumn(es)
    case None =>
    case Some(p) =>
      var r := Decorate(es, p, FeedClasses(v), FeedStylesFor(v));
      assert forall k :: 0 <= k < |r| ==> r[k].testId == es[k].testId;
      FirstWithTestIdSame(es, r, "primaryColumn", 0);
      DecorateTwice(es, p, FeedClasses(v), FeedStylesFor(v));
  }

  /** `querySelector` by test id only looks at test ids. */
  lemma {:induction false} FirstWithTestIdSame(x: seq<Element>, y: seq<Element>, t: string, k: nat)
    requires |x| == |y| && forall i :: 0 <= i < |x| ==> x[i].testId == y[i].testId
    ensures FirstWithTestId(x, t, k) == FirstWithTestId(y, t, k)
    decreases |x| - k
  {
    if k < |x| {
      FirstWithTestIdSame(x, y, t, k + 1);
    }
  }

  // ---------------------------------------------------------------------
  // transformNavigation

  function NavStylesFor(v: Version): map<string, string>
  {
    if v == Current then NavStyles else LegacyNavStyles
  }

  /** The page after `transformNavigation` with the viewport `viewportWidth` pixels wide. */
  function TransformNav(es: seq<Element>, viewportWidth: int, v: Version): (r: seq<Element>)
    ensures |r| == |es|
  {
    match Sidebar(es)
    case None => es
    case Some(s) => Decorate(es, s, {Applied}, if viewportWidth >= DesktopWidth then NavStylesFor(v) else map[])
  }

  /** The sidebar is always marked, but pinned only on a desktop-wide viewport. */
  lemma NavEffect(es: seq<Element>, viewportWidth: int, v: Version)
    ensures var r := TransformNav(es, viewportWidth, v);
            && |r| == |es| && SameShape(r, es)
            && (Sidebar(es).None? ==> r == es)
            && (forall k :: 0 <= k < |es| && Sidebar(es) != Some(k) ==> r[k] == es[k])
    ensures Sidebar(es).Some? ==>
              var s := Sidebar(es).value;
              var r := TransformNav(es, viewportWidth, v);
              && r[s].classes == es[s].classes + {Applied}
              && (viewportWidth < DesktopWidth ==> r[s].style == es[s].style)
              && (viewportWidth >= DesktopWidth ==>
                    forall q :: q in NavStylesFor(v) ==> q in r[s].style && r[s].style[q] == NavStylesFor(v)[q])
  {
    match Sidebar(es)
    case None =>
    case Some(s) =>
      if viewportWidth < DesktopWidth {
        assert es[s].style + map[] == es[s].style;
      }
  }

  lemma NavIdempotent(es: seq<Element>, viewportWidth: int, v: Version)
    ensures TransformNav(TransformNav(es, viewportWidth, v), viewportWidth, v) == TransformNav(es, viewportWidth, v)
  {
    match Sidebar(es)
    case None =>
    case Some(s) =>
      var st := if viewportWidth >= DesktopWidth then NavStylesFor(v) else map[];
      var r := Decorate(es, s, {Applied}, st);
      FirstWithTestIdSame(es, r, "sidebarColumn", 0);
      DecorateTwice(es, s, {Applied}, st);
  }

  // ---------------------------------------------------------------------
  // removePromotionalContent

  function HideIfPromoted(e: Element): Element
  {
    if IsPromoted(e) then e.(classes := e.classes + {Hidden}) else e
  }

  /** The page after `removePromotionalContent`. */
  function HidePromoted(es: seq<Element>): seq<Element>
  {
    seq(|es|, k requires 0 <= k < |es| => HideIfPromoted(es[k]))
  }

  /** Promoted tweets are hidden by a class, never removed; exactly they gain
      `ux-fixer-hidden` and every other element is left as it is. */
  lemma HidePromotedEffect(es: seq<Element>)
    ensures var r := HidePromoted(es);
            && |r| == |es| && SameShape(r, es)
            && (forall k :: 0 <= k < |es| && IsPromoted(es[k]) ==> r[k].classes == es[k].classes + {Hidden} && r[k].style == es[k].style)
            && (forall k :: 0 <= k < |es| && !IsPromoted(es[k]) ==> r[k] == es[k])
            && (forall k :: 0 <= k < |es| ==> (Hidden in r[k].classes <==> IsPromoted(es[k]) || Hidden in es[k].classes))
  {
  }

  lemma HidePromotedIdempotent(es: seq<Element>)
    ensures HidePromoted(HidePromoted(es)) == HidePromoted(es)
  {
    var r := HidePromoted(es);
    assert forall k :: 0 <= k < |r| ==> HideIfPromoted(r[k]) == r[k];
  }

  // ---------------------------------------------------------------------
  // addSkipLinks

  function SkipLink(): Element
  {
    Element("", "", "A", {SkipLinkClass}, map[], SkipLinkText, Body)
  }

  /** An element moved one place down because something was inserted at position 1. */
  function Shifted(e: Element): Element
  {
    e.(parent := if e.parent >= 1 then e.parent + 1 else e.parent)
  }

  /** `document.body.insertBefore(skipLink, document.body.firstChild)`. */
  function InsertSkipLink(es: seq<Element>): (r: seq<Element>)
    requires |es| >= 1
    ensures |r| == |es| + 1 && r[0] == es[0] && r[1] == SkipLink()
    ensures forall k :: 1 <= k < |es| ==> r[k + 1] == Shifted(es[k])
  {
    [es[0], SkipLink()] + seq(|es| - 1, k requires 0 <= k < |es| - 1 => Shifted(es[k + 1]))
  }

  /** `primaryColumn.id = 'main-content'` when there is a primary column. */
  function AnchorMain(es: seq<Element>): (r: seq<Element>)
    ensures |r| == |es|
  {
    match PrimaryColumn(es)
    case None => es
    case Some(p) => es[p := es[p].(id := MainContentId)]
  }

  lemma AnchorMainAt(es: seq<Element>, k: nat)
    requires k < |es|
    ensures AnchorMain(es)[k] == if PrimaryColumn(es) == Some(k) then es[k].(id := MainContentId) else es[k]
  {
  }

  /** The page after `addSkipLinks`. */
  function AddSkipLinks(es: seq<Element>): seq<Element>
    requires |es| >= 1
  {
    if HasClassSomewhere(es, SkipLinkClass) then es else AnchorMain(InsertSkipLink(es))
  }

  /** The number of elements with class `c` among positions below `k`. */
  function CountClass(es: seq<Element>, c: string, k: nat): nat
    requires k <= |es|
  {
    if k == 0 then 0 else CountClass(es, c, k - 1) + (if c in es[k - 1].classes then 1 else 0)
  }

  lemma {:induction false} FirstWithTestIdShifted(es: seq<Element>, r: seq<Element>, t: string, k: nat)
    requires |es| >= 1 && |r| == |es| + 1 && 1 <= k <= |es| && t != ""
    requires forall i :: 1 <= i < |es| ==> r[i + 1].testId == es[i].testId
    ensures FirstWithTestId(r, t, k + 1) == (match FirstWithTestId(es, t, k) case None => None case Some(p) => Some(p + 1))
    decreases |es| - k
  {
    if k < |es| {
      FirstWithTestIdShifted(es, r, t, k + 1);
    }
  }

  /** Where the primary column is once the skip link sits at position 1. */
  lemma PrimaryColumnAfterInsert(es: seq<Element>)
    requires |es| >= 1
    ensures PrimaryColumn(InsertSkipLink(es)) ==
              if es[0].testId == "primaryColumn" then Some(0)
              else match PrimaryColumn(es) case None => None case Some(p) => Some(p + 1)
  {
    var r := InsertSkipLink(es);
    FirstWithTestIdShifted(es, r, "primaryColumn", 1);
  }

  lemma InsertKeepsWellFormed(es: seq<Element>)
    requires WellFormed(es)
    ensures WellFormed(InsertSkipLink(es))
  {
    var r := InsertSkipLink(es);
    forall k | 1 <= k < |r| ensures 0 <= r[k].parent < k {
      if k >= 2 {
        assert r[k] == Shifted(es[k - 1]);
      }
    }
  }

  /** Setting the id of the primary column changes nothing else. */
  lemma AnchorOnlyId(es: seq<Element>)
    requires |es| >= 1 && !HasClassSomewhere(es, SkipLinkClass)
    ensures var i := InsertSkipLink(es);
            var r := AddSkipLinks(es);
            && |r| == |i|
            && (forall k :: 0 <= k < |r| ==> r[k].(id := i[k].id) == i[k])
            && (PrimaryColumn(i).Some? ==> PrimaryColumn(r) == PrimaryColumn(i) && r[PrimaryColumn(r).value].id == MainContentId)
  {
    var i := InsertSkipLink(es);
    var r := AddSkipLinks(es);
    if PrimaryColumn(i).Some? {
      var p := PrimaryColumn(i).value;
      FirstWithTestIdSame(i, r, "primaryColumn", 0);
    }
  }

  /** Without a skip link on the page, `addSkipLinks` puts exactly one in, as
      the body's first child, keeps the rest of the page in order under the
      same parents, and gives the primary column the id `main-content`. */
  lemma SkipLinkAdded(es: seq<Element>)
    requires WellFormed(es) && !HasClassSomewhere(es, SkipLinkClass)
    ensures var r := AddSkipLinks(es);
            && WellFormed(r) && |r| == |es| + 1
            && r[1] == SkipLink() && r[1].parent == Body
            && CountClass(r, SkipLinkClass, |r|) == 1
            && (forall k :: 1 <= k < |es| ==> r[k + 1].parent == Shifted(es[k]).parent && r[k + 1].classes == es[k].classes)
            && (PrimaryColumn(es).Some? ==> PrimaryColumn(r).Some? && r[PrimaryColumn(r).value].id == MainContentId)
  {
    var i := InsertSkipLink(es);
    var r := AddSkipLinks(es);
    InsertKeepsWellFormed(es);
    AnchorOnlyId(es);
    PrimaryColumnAfterInsert(es);
    assert forall k :: 0 <= k < |r| ==> r[k].parent == i[k].parent && r[k].classes == i[k].classes;
    assert r[1] == SkipLink() by {
      assert r[1].(id := i[1].id) == i[1];
      if PrimaryColumn(i).Some? {
        assert PrimaryColumn(i).value != 1;
      }
    }
    assert SkipLinkClass !in r[0].classes;
    forall k | 2 <= k < |r| ensures SkipLinkClass !in r[k].classes {
      assert r[k].classes == es[k - 1].classes;
    }
    CountFromTwo(r, SkipLinkClass, |r|);
  }

  /** `addSkipLinks` keeps a well-formed page well formed, whether or not it
      inserts a link. */
  lemma SkipLinksWellFormed(es: seq<Element>)
    requires WellFormed(es)
    ensures WellFormed(AddSkipLinks(es))
  {
    if !HasClassSomewhere(es, SkipLinkClass) {
      SkipLinkAdded(es);
    }
  }

  /** Without a skip link on the page, `addSkipLinks` changes nothing but
      positions and parents, apart from the new link and the `main-content`
      id of the primary column. */
  lemma SkipLinkMoves(es: seq<Element>)
    requires |es| >= 1 && !HasClassSomewhere(es, SkipLinkClass)
    ensures var r := AddSkipLinks(es);
            && |r| == |es| + 1 && r[1] == SkipLink()
            && (PrimaryColumn(es) != Some(0) ==> r[0] == es[0])
            && (forall k :: 1 <= k < |es| && PrimaryColumn(es) != Some(k) ==> r[k + 1] == Shifted(es[k]))
    ensures PrimaryColumn(es).Some? ==>
              var p := PrimaryColumn(es).value;
              var r := AddSkipLinks(es);
              && (p == 0 ==> r[0] == es[0].(id := MainContentId))
              && (p > 0 ==> r[p + 1] == Shifted(es[p]).(id := MainContentId))
  {
    var i := InsertSkipLink(es);
    var r := AddSkipLinks(es);
    assert r == AnchorMain(i);
    PrimaryColumnAfterInsert(es);
    AnchorMainAt(i, 0);
    AnchorMainAt(i, 1);
    forall k | 1 <= k < |es|
      ensures r[k + 1] == if PrimaryColumn(es) == Some(k) then Shifted(es[k]).(id := MainContentId) else Shifted(es[k])
    {
      AnchorMainAt(i, k + 1);
    }
  }

  lemma {:induction false} CountFromTwo(r: seq<Element>, c: string, k: nat)
    requires 2 <= k <= |r| && c !in r[0].classes && c in r[1].classes
    requires forall i :: 2 <= i < k ==> c !in r[i].classes
    ensures CountClass(r, c, k) == 1
  {
    if k > 2 {
      CountFromTwo(r, c, k - 1);
    } else {
      assert CountClass(r, c, 1) == 0;
    }
  }

  /** With a skip link already there, `addSkipLinks` changes nothing; so a
      second call never adds a second link. */
  lemma SkipLinksIdempotent(es: seq<Element>)
    requires WellFormed(es)
    ensures AddSkipLinks(AddSkipLinks(es)) == AddSkipLinks(es)
  {
    if !HasClassSomewhere(es, SkipLinkClass) {
      SkipLinkAdded(es);
      var r := AddSkipLinks(es);
      assert SkipLinkClass in r[1].classes;
    }
  }

  // ---------------------------------------------------------------------
  // The performance-mode class on the body

  /** `classList.add(c)` when `on`, `classList.remove(c)` otherwise. */
  function SetClass(e: Element, c: string, on: bool): (r: Element)
    ensures (c in r.classes) == on
    ensures forall d :: d != c ==> (d in r.classes <==> d in e.classes)
    ensures r.(classes := e.classes) == e
  {
    if on then e.(classes := e.classes + {c}) else e.(classes := e.classes - {c})
  }

  /** Two toggles of performance mode restore the body whenever its class was
      in step with the flag to begin with. */
  lemma ToggleTwice(body: Element, mode: bool)
    requires (PerformanceClass in body.classes) == mode
    ensures SetClass(SetClass(body, PerformanceClass, !mode), PerformanceClass, mode) == body
  {
    var r := SetClass(SetClass(body, PerformanceClass, !mode), PerformanceClass, mode);
    assert r.classes == body.classes;
  }
}
